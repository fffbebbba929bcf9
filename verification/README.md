# Terraform backend helpers, modelled in Dafny

This project models the logic of a small Terraform remote-state toolkit for
AWS. It has three parts:

* **State comparison** (`state_diff.dfy`, module `StateDiff`). This is the
  handler that loads the pre- and post-deployment `terraform.tfstate`
  snapshots and turns each into a map from `type.name` to the attributes of
  the resource's first instance. It splits the keys into added, removed and
  changed, and renders the Korean-language change report that is published
  to the notification topic. A snapshot that does not exist (`NoSuchKey`)
  counts as an empty state.
* **Stale-lock reclamation** (`lock_cleaner.dfy`, module `LockCleaner`). This
  is the janitor that reads the Terraform lock record from the DynamoDB lock
  table. It deletes the record only when its `Info.CreatedTime` is older
  than the threshold (300 seconds by default).
* **Backend manager** (`backend_manager.dfy`, module
  `BackendManager`). It covers:
  * the S3 bucket, DynamoDB table and GitHub owner/repository name
    validators;
  * the constructor's check order;
  * the GitHub Actions OIDC role: its name, ARN, trust policy and the
    provider calls that create it;
  * the bounded readiness poll `wait_for_resource`.

Supporting modules:

* `Wrappers` holds `Option` and `Result`.
* `Strings` holds code-point string order, Python's `sorted` on a set of
  strings, and `"\n".join`.
* `PyRegex` gives the meaning of the anchored, repetition-only regular
  expressions the validators pass to `re.match`. That includes Python's `$`,
  which also matches before one final newline. The direct character-level
  validators are proved equal to these patterns.

Modelling choices:

* Python's iteration order over a fresh `set` is not fixed, so the order of
  the attribute lines inside a changed resource is a parameter (`orders`).
  `CompareResources` promises that the report it returns is the `Report` for
  *some* valid choice of those orders.
* Python's `str()` of an attribute value is the parameter `show`, and an
  explicit JSON `null` is `None`.
* Time is whole seconds (`now`), and `float(created_time)` is the parameter
  `parse`.
* The AWS account and the existence of the OIDC provider and the role form
  the input `Aws`. The manager records every provider call it issues in
  `calls`.

An entry whose `instances` list is empty raises `IndexError` at
`lambda_function.py` line 24. The handler then returns its error result. The
model keeps this behaviour; it does not treat such an entry as having empty
attributes.

## Model

| member | source | states |
|---|---|---|
| StateDiff.Entry | backend/lambda_package/lambda_function.py:23-24 | one entry gives `type + "." + name` and the attributes of its first instance (absent `instances` = one empty instance, absent `attributes` = empty); a missing `type`, then a missing `name`, raises `KeyError`, an empty `instances` list raises `IndexError` |
| StateDiff.Extracted | backend/lambda_package/lambda_function.py:21-26 | the entries folded in order into a map, a later entry overwriting an earlier one with the same key; the first exception ends the fold |
| StateDiff.EmptyState | backend/lambda_package/lambda_function.py:66 | the document used for a missing snapshot: version 4, Terraform `1.5.7`, an empty `resources` list (the same document at line 77) |
| StateDiff.Resources | backend/lambda_package/lambda_function.py:22 | `state.get("resources", [])`: the document's resource list, or the empty list when it has none |
| StateDiff.ExtractResources | backend/lambda_package/lambda_function.py:20-26 | the loop's result is the fold `Extracted` over the `resources` list (absent list = empty), exceptions included |
| StateDiff.FailureSticks | backend/lambda_package/lambda_function.py:22-25 | once an entry has raised, later entries cannot change the outcome |
| StateDiff.ExtractErrors | backend/lambda_package/lambda_function.py:22-25 | extraction succeeds iff every entry has `type`, `name` and a non-empty (or absent) `instances`; otherwise the error is the first malformed entry's |
| StateDiff.ExtractedHasKey | backend/lambda_package/lambda_function.py:23-25 | a key is in the extracted map iff some entry produces `type.name` equal to it |
| StateDiff.ExtractedLastWins | backend/lambda_package/lambda_function.py:23-25 | for a duplicated key the attributes of the last entry with that key are kept |
| StateDiff.EmptyStatesExtractEmpty | backend/lambda_package/lambda_function.py:22 | the substituted empty state and a state without `resources` both extract to the empty map |
| StateDiff.Classify | backend/lambda_package/lambda_function.py:29-37 | added, removed and changed are pairwise disjoint and together with the unchanged keys cover both key sets; changed keys are in both maps with different attributes |
| StateDiff.ChangedKeys | backend/lambda_package/lambda_function.py:33-37 | the loop collects exactly the common keys whose attribute maps differ |
| StateDiff.Get | backend/lambda_package/lambda_function.py:49-50 | `attrs.get(k)`: the value stored under the name, or `None` when the name is absent |
| StateDiff.DiffNames | backend/lambda_package/lambda_function.py:50 | the names in the union of both attribute maps' keys whose `.get` values differ |
| StateDiff.DiffLines | backend/lambda_package/lambda_function.py:49-50 | one line per attribute name whose `.get` values differ, each name once, in some iteration order |
| StateDiff.EnumeratesSingleton | backend/lambda_package/lambda_function.py:49-50 | a one-element set has a single iteration order |
| StateDiff.ValidOrders | backend/lambda_package/lambda_function.py:46-50 | one list per changed key in ascending key order, each listing that key's differing names exactly once, in any order (the iteration order of a fresh `set`) |
| StateDiff.AddedHeader | backend/lambda_package/lambda_function.py:41 | the added-section header, a newline first |
| StateDiff.RemovedHeader | backend/lambda_package/lambda_function.py:44 | the removed-section header, a newline first |
| StateDiff.ChangedHeader | backend/lambda_package/lambda_function.py:52 | the changed-resource header, a newline first, followed by the key |
| StateDiff.NoChange | backend/lambda_package/lambda_function.py:55 | the text returned when no line was collected |
| StateDiff.Str | backend/lambda_package/lambda_function.py:49 | `str()` of a `.get` value: `None` for a missing value, otherwise the shown value |
| StateDiff.AttrLine | backend/lambda_package/lambda_function.py:49 | four spaces, a bullet, the name, then the old and the new value each in single quotes, joined by an arrow |
| StateDiff.AttrLines | backend/lambda_package/lambda_function.py:49-50 | one attribute line per name, in the order the names are given |
| StateDiff.Bullets | backend/lambda_package/lambda_function.py:42-45 | one line per key, the mark (`  + ` or `  - `) followed by the key, in the given order |
| StateDiff.Section | backend/lambda_package/lambda_function.py:40-45 | the header followed by the bulleted keys, or no line at all when there is no key |
| StateDiff.ChangedBlock | backend/lambda_package/lambda_function.py:49-53 | the header with the key followed by the attribute lines, or no line at all when the attribute list is empty |
| StateDiff.ChangedSections | backend/lambda_package/lambda_function.py:46-53 | the blocks of the given changed keys concatenated in key order, the `i`-th with the `i`-th attribute order |
| StateDiff.Messages | backend/lambda_package/lambda_function.py:39-53 | the collected lines: the added section, then the removed section, then one block per changed key in ascending key order |
| StateDiff.Report | backend/lambda_package/lambda_function.py:55 | the collected lines joined with newlines, or the "no change" text when none was collected |
| StateDiff.ChangedBlockOf | backend/lambda_package/lambda_function.py:47-53 | for one changed key: its header plus one line per differing attribute in some iteration order, or nothing when no attribute line differs |
| StateDiff.ChangedLines | backend/lambda_package/lambda_function.py:46-53 | the lines for the changed keys, in the given key order, are `ChangedSections` for iteration orders that enumerate each key's differing names |
| StateDiff.CompareResources | backend/lambda_package/lambda_function.py:28-55 | the returned string is `Report(pre, post)` for some valid iteration order of the per-key attribute sets |
| StateDiff.ChangedSectionsStartWithHeader | backend/lambda_package/lambda_function.py:52 | when any changed-resource line is collected, the first one begins with a newline |
| StateDiff.ReportNoChangeIff | backend/lambda_package/lambda_function.py:55 | the report is the "no change" text iff no line was collected, and is never empty |
| StateDiff.ChangedSectionsEmptyIff | backend/lambda_package/lambda_function.py:46-53 | the changed blocks are empty iff every changed key lists no differing attribute |
| StateDiff.SectionEmptyIff | backend/lambda_package/lambda_function.py:40-45 | the added or removed section is present iff its key set is non-empty |
| StateDiff.OrdersEmptyIff | backend/lambda_package/lambda_function.py:46-53 | every per-key listing is empty iff no changed resource has an attribute whose `.get` values differ |
| StateDiff.MessagesEmptyIff | backend/lambda_package/lambda_function.py:39-55 | no line is collected iff nothing was added or removed and no changed resource has a visible attribute difference |
| StateDiff.SelfCompareIsNoChange | backend/lambda_package/lambda_function.py:28-55 | comparing a map with itself yields the "no change" report |
| StateDiff.DiffNamesEmptyIff | backend/lambda_package/lambda_function.py:49-51 | no attribute line iff `.get` agrees on every name |
| StateDiff.SilentChangeIsNoneVersusAbsent | backend/lambda_package/lambda_function.py:35-51 | a changed resource with no attribute lines differs only by a `None` value against an absent name |
| StateDiff.NoneVersusAbsentIsSilent | backend/lambda_package/lambda_function.py:35-55 | concrete case: `{"x": None}` against `{}` is classified changed yet the report says "no change" |
| StateDiff.ExampleClassified | backend/lambda_package/lambda_function.py:29-37 | the bucket/role example classifies as added `{aws_iam_role.y}`, changed `{aws_s3_bucket.x}` with differing name `acl` |
| StateDiff.ExampleOrders | backend/lambda_package/lambda_function.py:49-50 | in that example the only iteration order is `[["acl"]]` |
| StateDiff.ExampleChangedLines | backend/lambda_package/lambda_function.py:46-53 | in that example the changed block is its header and the line for `acl` from `private` to `public` |
| StateDiff.ExampleAddedSection | backend/lambda_package/lambda_function.py:40-42 | the added section of the example is its header and `  + aws_iam_role.y` |
| StateDiff.ExampleMessages | backend/lambda_package/lambda_function.py:39-53 | the example's collected lines, with a fixed classification |
| StateDiff.AddedAndChangedExample | backend/lambda_package/lambda_function.py:39-53 | the example's collected lines, for every valid iteration order |
| StateDiff.SingletonSorted | backend/lambda_package/lambda_function.py:42 | sorting a one-element set gives that element |
| StateDiff.LoadState | backend/lambda_package/lambda_function.py:60-79 | a found object is used as is; `NoSuchKey` gives a state that extracts to the empty map; every other error code fails |
| StateDiff.Inputs | backend/lambda_package/lambda_function.py:58-82 | pre snapshot loaded, then post, then both extracted; the first failure in that order is the result |
| StateDiff.LambdaHandler | backend/lambda_package/lambda_function.py:57-121 | load or extraction failures and a failed publish give an error result, and nothing escapes; otherwise the result is `Done(report)`, where `report` is `Report(pre, post)`, the comparison the published message carries (the source itself returns a constant status dictionary) |
| StateDiff.MissingStateIsEmptyState | backend/lambda_package/lambda_function.py:63-82 | a missing snapshot behaves exactly like one whose `resources` are empty or absent, on either side |
| Strings.Less | backend/lambda_package/lambda_function.py:42 | Python's `<` on `str`: the first differing code point decides, and a proper prefix sorts first |
| Strings.LessIrreflexive | backend/lambda_package/lambda_function.py:42 | the code-point string order used by `sorted` is irreflexive |
| Strings.LessAsymmetric | backend/lambda_package/lambda_function.py:42 | the order is asymmetric |
| Strings.LessTransitive | backend/lambda_package/lambda_function.py:42 | the order is transitive |
| Strings.LessTotal | backend/lambda_package/lambda_function.py:42 | any two distinct strings are ordered |
| Strings.Insert | backend/lambda_package/lambda_function.py:42 | inserting a new string into an ascending list keeps it ascending and adds exactly that string |
| Strings.LeastExists | backend/lambda_package/lambda_function.py:42 | every non-empty set of strings has a least element |
| Strings.SortedOf | backend/lambda_package/lambda_function.py:42 | `sorted(s)` is ascending, holds exactly the elements of `s`, and has `|s|` elements |
| Strings.AscendingUnique | backend/lambda_package/lambda_function.py:46 | two ascending lists with the same elements are equal, so `sorted` is determined |
| Strings.SortKeys | backend/lambda_package/lambda_function.py:42 | the method's result is `sorted(s)` |
| Strings.Join | backend/lambda_package/lambda_function.py:55 | a join of non-empty parts starts with the first part; the join of no parts is empty |
| LockCleaner.LockTable.constructor | backend/lambda_package/lock_cleaner.py:11 | a table handle over the given items, with no deletions yet |
| LockCleaner.LockTable.GetItem | backend/lambda_package/lock_cleaner.py:13-14 | the item stored under the key, or none |
| LockCleaner.LockTable.DeleteItem | backend/lambda_package/lock_cleaner.py:25 | the key is removed, everything else is kept, and the deletion is logged |
| LockCleaner.DefaultConfig | backend/lambda_package/lock_cleaner.py:6-8 | the environment defaults: table `terraform-lock`, lock id `global/s3/terraform.tfstate`, threshold 300 seconds |
| LockCleaner.CreatedTime | backend/lambda_package/lock_cleaner.py:18 | `Info.CreatedTime` of the item: absent when `Info` or the field is absent, an `AttributeError` when `Info` is not a map |
| LockCleaner.Decide | backend/lambda_package/lock_cleaner.py:13-30 | no lock, then unreadable `Info`, then missing or empty timestamp, then unparsable timestamp, each end without deletion; otherwise the age `now - created` is reclaimed when strictly above the threshold and kept otherwise |
| LockCleaner.After | backend/lambda_package/lock_cleaner.py:23-28 | only the lock id can disappear, and only on a reclaim; other entries are unchanged |
| LockCleaner.LambdaHandler | backend/lambda_package/lock_cleaner.py:10-30 | the outcome is `Decide` on the old table; the table loses the lock id exactly on a reclaim, with exactly one logged delete, and is otherwise untouched |
| LockCleaner.ReclaimedIffStale | backend/lambda_package/lock_cleaner.py:13-25 | the lock is deleted iff it exists, has a non-empty parsable `CreatedTime`, and its age is strictly greater than the threshold |
| LockCleaner.AmbiguousNeverReclaimed | backend/lambda_package/lock_cleaner.py:13-30 | a missing record, a missing or empty timestamp, an unreadable `Info` and an unparsable timestamp each end without a deletion |
| LockCleaner.SecondRunIsNoOp | backend/lambda_package/lock_cleaner.py:13-25 | after a reclaim, a later run finds no lock |
| LockCleaner.DefaultThresholdExamples | backend/lambda_package/lock_cleaner.py:6-28 | with the default 300 s, ages 301, 300 and 299 give delete, keep and keep |
| BackendManager.ValidBucketName | backend/terraform_backend_minimum.py:38-40 | 3–63 characters of `[a-z0-9.-]` with a lower-case letter or digit at both ends, optionally followed by one newline |
| BackendManager.ValidTableName | backend/terraform_backend_minimum.py:42-44 | 3–255 characters of `[A-Za-z0-9_.-]`, optionally followed by one newline |
| BackendManager.ValidOwner | backend/terraform_backend_minimum.py:47-49 | 1–39 characters, the first a letter or digit and the rest letters, digits or `-`, optionally followed by one newline |
| BackendManager.ValidRepo | backend/terraform_backend_minimum.py:48-49 | 1–100 characters of `[A-Za-z0-9_.-]`, optionally followed by one newline |
| BackendManager.ValidGithubRepo | backend/terraform_backend_minimum.py:46-49 | both the owner and the repository name are valid |
| BackendManager.BucketPattern | backend/terraform_backend_minimum.py:39 | the bucket pattern as pieces: one `[a-z0-9]`, 1 to 61 of `[a-z0-9.-]`, one `[a-z0-9]` |
| BackendManager.TablePattern | backend/terraform_backend_minimum.py:43 | the table pattern as one piece: 3 to 255 of `[a-zA-Z0-9_.-]` |
| BackendManager.OwnerPattern | backend/terraform_backend_minimum.py:47 | the owner pattern as pieces: one `[a-zA-Z0-9]`, then 0 to 38 of `[-a-zA-Z0-9]` |
| BackendManager.RepoPattern | backend/terraform_backend_minimum.py:48 | the repository pattern as one piece: 1 to 100 of `[a-zA-Z0-9_.-]` |
| PyRegex.Spans | backend/terraform_backend_minimum.py:38-49 | the string splits into consecutive runs, one per pattern piece, each of a length the piece's repetition bounds allow and made only of characters of its bracket class |
| PyRegex.Matches | backend/terraform_backend_minimum.py:38-49 | `re.match` with `^…$` succeeds: the pieces span the whole string, or the string without one final newline, because `$` also matches before a newline that ends the string |
| BackendManager.ClassMeanings | backend/terraform_backend_minimum.py:38-48 | each bracket expression of the patterns admits exactly the characters the direct validators allow |
| BackendManager.BucketFormIsPattern | backend/terraform_backend_minimum.py:38-40 | 3–63 characters with letter/digit ends and `[a-z0-9.-]` inside is exactly the bucket pattern |
| BackendManager.TableFormIsPattern | backend/terraform_backend_minimum.py:42-44 | 3–255 characters of `[A-Za-z0-9_.-]` is exactly the table pattern |
| BackendManager.OwnerFormIsPattern | backend/terraform_backend_minimum.py:46-49 | 1–39 characters, alphanumeric first and `[-A-Za-z0-9]` after, is exactly the owner pattern |
| BackendManager.RepoFormIsPattern | backend/terraform_backend_minimum.py:46-49 | 1–100 characters of `[A-Za-z0-9_.-]` is exactly the repository pattern |
| BackendManager.ValidatorsArePatterns | backend/terraform_backend_minimum.py:38-49 | each validator accepts exactly what `re.match` with its pattern accepts, one final newline included |
| BackendManager.TrailingNewlineAccepted | backend/terraform_backend_minimum.py:38-44 | a valid name followed by one newline passes, and one followed by two does not |
| BackendManager.ValidatorExamples | backend/terraform_backend_minimum.py:38-49 | sample names accepted and refused (upper case, too short, leading `-`, `/`, empty repository) |
| BackendManager.InitCheck | backend/terraform_backend_minimum.py:13-19 | the error is the region's when the region is unknown, else the bucket's, else the table's; none iff all three pass |
| BackendManager.RoleName | backend/terraform_backend_minimum.py:239 | `GitHubTerraformOIDCRole-` followed by the repository name |
| BackendManager.RoleArn | backend/terraform_backend_minimum.py:371 | `arn:aws:iam::<account>:role/<role name>` |
| BackendManager.ProviderArn | backend/terraform_backend_minimum.py:215-216 | `arn:aws:iam::<account>:oidc-provider/token.actions.githubusercontent.com` |
| BackendManager.Subject | backend/terraform_backend_minimum.py:253 | `repo:<owner>/<repo>:environment:production` |
| BackendManager.TrustPolicyFor | backend/terraform_backend_minimum.py:244-259 | version `2012-10-17`, one `Allow` statement for `sts:AssumeRoleWithWebIdentity` federated to the provider, with the subject above and audience `sts.amazonaws.com` |
| BackendManager.ProviderCalls | backend/terraform_backend_minimum.py:214-233 | an identity call, the provider lookup under its ARN, and a creation with the GitHub URL, STS client id and thumbprint only when the provider is missing |
| BackendManager.UsedProviderArn | backend/terraform_backend_minimum.py:214-230 | the computed provider ARN when the provider exists (line 221), otherwise the ARN the creation call returns (line 230) |
| BackendManager.RoleCalls | backend/terraform_backend_minimum.py:239-367 | an identity call, the provider calls, the role lookup, then a trust-policy update when the role exists or a role creation when it does not, then `TerraformStateAccess` attached |
| BackendManager.Manager.constructor | backend/terraform_backend_minimum.py:21-23 | the fields are the validated arguments and no call has been made |
| BackendManager.Manager.New | backend/terraform_backend_minimum.py:13-23 | a manager exists iff all checks pass, and the error is the first failing check; the lock table defaults to `terraform-lock` |
| BackendManager.Manager.GetAccountId | backend/terraform_backend_minimum.py:51-56 | one identity call, and its account is returned |
| BackendManager.Manager.EnsureGithubOidcProvider | backend/terraform_backend_minimum.py:214-233 | the provider is looked up under its ARN and created only when missing; the ARN in use is returned |
| BackendManager.Manager.CreateGithubOidcRole | backend/terraform_backend_minimum.py:235-374 | an invalid owner or repository fails with no provider call; otherwise the role is created or re-trusted, the policy attached, and `arn:aws:iam::<account>:role/GitHubTerraformOIDCRole-<repo>` returned |
| BackendManager.RoleCallsWriteOneTrustPolicy | backend/terraform_backend_minimum.py:261-367 | exactly one trust-policy write, on the repository's role, admitting only `repo:<owner>/<repo>:environment:production` with audience `sts.amazonaws.com`; the permission policy is attached last |
| BackendManager.SubjectInjective | backend/terraform_backend_minimum.py:253 | distinct valid owner/repository pairs get distinct token subjects |
| BackendManager.RoleArnInjective | backend/terraform_backend_minimum.py:371 | for accounts that contain no `:`, distinct accounts or repositories get distinct role ARNs |
| BackendManager.OwnerHasNoSlash | backend/terraform_backend_minimum.py:46-49 | a valid owner contains no `/` |
| BackendManager.MaxRetries | backend/terraform_backend_minimum.py:59 | at most 10 attempts |
| BackendManager.Manager.WaitForResource | backend/terraform_backend_minimum.py:58-70 | true iff one of the first 10 probes reports the expected status, stopping at the first such probe; false after 10 misses, where an exception is a miss |

## Left out

- Every AWS SDK call (S3, SNS, DynamoDB, IAM, STS) runs outside the model. Reads are inputs (`Fetched`, the lock table's items, `Aws`). Writes are logged calls or a boolean "published".
- `_validate_region` depends on the SDK's list of regions, so that list is the parameter `regions`.
- Python's `str()` of attribute values, `json.loads`/`json.dumps`, logging, `print` and the banner around the report are not modelled. Values are shown through the parameter `show`, and JSON values are only present, `null` or absent.
- StateDiff.LambdaHandler: only the kind of error is modelled. The source best-effort publishes an error notification and returns a status dictionary, and that is left out.
- StateDiff.ExtractResources: JSON type mismatches other than a missing key are not modelled; examples are a `resources` value that is not a list, or an instance that is not a dictionary.
- LockCleaner.LambdaHandler: `time.time()` and `float()` are fractional, but the model uses whole seconds and the parameter `parse`. The environment's `MAX_LOCK_AGE_SECONDS` is parsed outside the model, as the `Config` parameter.
- LockCleaner.LambdaHandler: a lock item is never empty in the model, because DynamoDB items always carry their key. A present but empty item therefore never takes the "no lock" path.
- LockCleaner.Decide: `Info.CreatedTime` is assumed to be a string, which is the lock record's shape. The source tests it with Python truthiness, so a falsy non-string value also ends without deletion: a numeric `Decimal(0)`, `False`, or an empty list or map. Such values are not represented. The nearest input, the string `"0"`, is non-empty and goes on to `parse`.
- LockCleaner.LambdaHandler: `get_item` and `delete_item` always answer. In the source, a failure of either is caught and printed, and then nothing is deleted. The model's promise that the lock id disappears exactly on a reclaim assumes the delete succeeds.
- BackendManager.Manager.CreateGithubOidcRole: provider errors other than "not found" re-raise in the source. The model treats every call as answered.
- The tags and description of role and provider creation are not modelled, and neither is the static permission policy attached as `TerraformStateAccess`. Only its name is kept. The thumbprint is a constant of `_get_github_thumbprint` (`GithubThumbprint`), and it is passed to the provider creation call.
- BackendManager.Manager.WaitForResource: `time.sleep(2)` between attempts and the log lines are not modelled. `probe(i)` stands for the status getter's answer on attempt `i`.
- The bucket and table provisioning methods, the status getters, the deletion scripts, the packaging script and the interactive command-line tools are not part of this model. They are fixed sequences of provider calls.
