/** `TerraformBackendManager`: input validation for the backend's resource
    names, the GitHub OIDC role it provisions, and its readiness polling.
    AWS is seen only through the calls the manager makes, which it records. */
module BackendManager {
  import opened Wrappers
  import opened PyRegex

  // ---------------------------------------------------------------------
  // Name validators, stated directly over characters

  predicate IsLowerAlnum(c: char) { 'a' <= c <= 'z' || '0' <= c <= '9' }

  predicate IsAlnum(c: char) { 'a' <= c <= 'z' || 'A' <= c <= 'Z' || '0' <= c <= '9' }

  /** Letters, digits, `_`, `.` and `-`. */
  predicate IsNameChar(c: char) { IsAlnum(c) || c == '_' || c == '.' || c == '-' }

  /** An anchored Python pattern also accepts its match followed by one
      final newline. */
  predicate EndsInNewline(s: string) { |s| > 0 && s[|s| - 1] == '\n' }

  function Chomp(s: string): string
    requires EndsInNewline(s)
  {
    s[..|s| - 1]
  }

  /** 3 to 63 characters of lower-case letters, digits, `.` and `-`,
      starting and ending with a letter or digit. */
  predicate BucketNameForm(s: string) {
    && 3 <= |s| <= 63
    && IsLowerAlnum(s[0]) && IsLowerAlnum(s[|s| - 1])
    && forall i :: 1 <= i < |s| - 1 ==> IsLowerAlnum(s[i]) || s[i] == '.' || s[i] == '-'
  }

  /** 3 to 255 name characters. */
  predicate TableNameForm(s: string) {
    3 <= |s| <= 255 && forall i :: 0 <= i < |s| ==> IsNameChar(s[i])
  }

  /** 1 to 39 letters, digits and `-`, starting with a letter or digit. */
  predicate OwnerForm(s: string) {
    && 1 <= |s| <= 39
    && IsAlnum(s[0])
    && forall i :: 1 <= i < |s| ==> IsAlnum(s[i]) || s[i] == '-'
  }

  /** 1 to 100 name characters. */
  predicate RepoForm(s: string) {
    1 <= |s| <= 100 && forall i :: 0 <= i < |s| ==> IsNameChar(s[i])
  }

  /** `_validate_bucket_name`. */
  predicate ValidBucketName(s: string) {
    BucketNameForm(s) || (EndsInNewline(s) && BucketNameForm(Chomp(s)))
  }

  /** `_validate_ddb_table_name`. */
  predicate ValidTableName(s: string) {
    TableNameForm(s) || (EndsInNewline(s) && TableNameForm(Chomp(s)))
  }

  predicate ValidOwner(s: string) {
    OwnerForm(s) || (EndsInNewline(s) && OwnerForm(Chomp(s)))
  }

  predicate ValidRepo(s: string) {
    RepoForm(s) || (EndsInNewline(s) && RepoForm(Chomp(s)))
  }

  /** `_validate_github_repo`. */
  predicate ValidGithubRepo(owner: string, repo: string) {
    ValidOwner(owner) && ValidRepo(repo)
  }

  // ---------------------------------------------------------------------
  // The same validators as the regular expressions `TerraformBackendManager` writes

  const LowerAlnum: CharClass := [('a', 'z'), ('0', '9')]
  const BucketInner: CharClass := [('a', 'z'), ('0', '9'), ('.', '.'), ('-', '-')]
  const NameChars: CharClass := [('a', 'z'), ('A', 'Z'), ('0', '9'), ('_', '_'), ('.', '.'), ('-', '-')]
  const Alnum: CharClass := [('a', 'z'), ('A', 'Z'), ('0', '9')]
  const OwnerTail: CharClass := [('-', '-'), ('a', 'z'), ('A', 'Z'), ('0', '9')]

  /** `^[a-z0-9][a-z0-9\.-]{1,61}[a-z0-9]$` */
  const BucketPattern: seq<Piece> := [Piece(LowerAlnum, 1, 1), Piece(BucketInner, 1, 61), Piece(LowerAlnum, 1, 1)]
  /** `^[a-zA-Z0-9_\.-]{3,255}$` */
  const TablePattern: seq<Piece> := [Piece(NameChars, 3, 255)]
  /** `^[a-zA-Z0-9][-a-zA-Z0-9]{0,38}$` */
  const OwnerPattern: seq<Piece> := [Piece(Alnum, 1, 1), Piece(OwnerTail, 0, 38)]
  /** `^[a-zA-Z0-9_.-]{1,100}$` */
  const RepoPattern: seq<Piece> := [Piece(NameChars, 1, 100)]

  lemma ClassMeanings(c: char)
    ensures InClass(c, LowerAlnum) <==> IsLowerAlnum(c)
    ensures InClass(c, BucketInner) <==> IsLowerAlnum(c) || c == '.' || c == '-'
    ensures InClass(c, NameChars) <==> IsNameChar(c)
    ensures InClass(c, Alnum) <==> IsAlnum(c)
    ensures InClass(c, OwnerTail) <==> IsAlnum(c) || c == '-'
  {
  }

  lemma BucketFormIsPattern(s: string)
    ensures BucketNameForm(s) <==> Spans(BucketPattern, s)
  {
    var rest := [Piece(BucketInner, 1, 61), Piece(LowerAlnum, 1, 1)];
    assert BucketPattern == [Piece(LowerAlnum, 1, 1)] + rest;
    SpansSingleFirst(LowerAlnum, rest, s);
    if |s| >= 1 {
      var u := s[1..];
      SpansThenLast(Piece(BucketInner, 1, 61), LowerAlnum, u);
      ClassMeanings(s[0]);
      ClassMeanings(s[|s| - 1]);
      if 2 <= |u| {
        assert u[|u| - 1] == s[|s| - 1];
        var v := u[..|u| - 1];
        assert forall i :: 0 <= i < |v| ==> v[i] == s[i + 1];
        forall c { ClassMeanings(c); }
      }
    }
  }

  lemma TableFormIsPattern(s: string)
    ensures TableNameForm(s) <==> Spans(TablePattern, s)
  {
    SpansOne(Piece(NameChars, 3, 255), s);
    forall c { ClassMeanings(c); }
  }

  lemma RepoFormIsPattern(s: string)
    ensures RepoForm(s) <==> Spans(RepoPattern, s)
  {
    SpansOne(Piece(NameChars, 1, 100), s);
    forall c { ClassMeanings(c); }
  }

  lemma OwnerFormIsPattern(s: string)
    ensures OwnerForm(s) <==> Spans(OwnerPattern, s)
  {
    assert OwnerPattern == [Piece(Alnum, 1, 1)] + [Piece(OwnerTail, 0, 38)];
    SpansSingleFirst(Alnum, [Piece(OwnerTail, 0, 38)], s);
    if |s| >= 1 {
      SpansOne(Piece(OwnerTail, 0, 38), s[1..]);
      ClassMeanings(s[0]);
      assert forall i :: 0 <= i < |s[1..]| ==> s[1..][i] == s[i + 1];
      forall c { ClassMeanings(c); }
    }
  }

  /** Each validator accepts exactly what `re.match` with `TerraformBackendManager`'s
      pattern accepts, a trailing newline included. */
  lemma ValidatorsArePatterns(s: string)
    ensures ValidBucketName(s) <==> Matches(BucketPattern, s)
    ensures ValidTableName(s) <==> Matches(TablePattern, s)
    ensures ValidOwner(s) <==> Matches(OwnerPattern, s)
    ensures ValidRepo(s) <==> Matches(RepoPattern, s)
  {
    BucketFormIsPattern(s);
    TableFormIsPattern(s);
    OwnerFormIsPattern(s);
    RepoFormIsPattern(s);
    if EndsInNewline(s) {
      BucketFormIsPattern(Chomp(s));
      TableFormIsPattern(Chomp(s));
      OwnerFormIsPattern(Chomp(s));
      RepoFormIsPattern(Chomp(s));
    }
  }

  /** Python's `$` lets a name through with one trailing newline. */
  lemma TrailingNewlineAccepted()
    ensures ValidBucketName("tf-state\n") && !BucketNameForm("tf-state\n")
    ensures ValidTableName("terraform-lock\n")
    ensures !ValidBucketName("tf-state\n\n")
  {
  }

  /** Names the validators tell apart. */
  lemma ValidatorExamples()
    ensures ValidBucketName("my-tf-state.2024")
    ensures !ValidBucketName("My-Bucket") && !ValidBucketName("ab") && !ValidBucketName("-bucket")
    ensures ValidTableName(DefaultLockTable) && !ValidTableName("ab") && !ValidTableName("lock/table")
    ensures ValidGithubRepo("moon-1994", "project") && !ValidGithubRepo("-moon", "project")
    ensures !ValidGithubRepo("moon", "")
  {
    assert "My-Bucket"[0] == 'M';
    assert "-bucket"[0] == '-';
    assert "lock/table"[4] == '/';
    assert "-moon"[0] == '-';
  }

  // ---------------------------------------------------------------------
  // Construction

  /** The `ValueError` the constructor raises. */
  datatype InitError = InvalidRegion(region: string) | InvalidBucketName(bucketName: string) | InvalidTableName(tableName: string)

  /** The lock table name used when the caller names none. */
  const DefaultLockTable: string := "terraform-lock"

  /** The first constructor check that fails, in the order region, bucket,
      table. `regions` is the provider's list of available regions. */
  function InitCheck(region: string, bucketName: string, ddbTable: string, regions: set<string>): (r: Option<InitError>)
    ensures r == None <==> region in regions && ValidBucketName(bucketName) && ValidTableName(ddbTable)
    ensures r == Some(InvalidRegion(region)) <==> region !in regions
    ensures r == Some(InvalidBucketName(bucketName)) <==> region in regions && !ValidBucketName(bucketName)
    ensures r == Some(InvalidTableName(ddbTable)) <==> region in regions && ValidBucketName(bucketName) && !ValidTableName(ddbTable)
  {
    if region !in regions then Some(InvalidRegion(region))
    else if !ValidBucketName(bucketName) then Some(InvalidBucketName(bucketName))
    else if !ValidTableName(ddbTable) then Some(InvalidTableName(ddbTable))
    else None
  }

  // ---------------------------------------------------------------------
  // The GitHub OIDC role

  const OidcHost: string := "token.actions.githubusercontent.com"
  const StsAudience: string := "sts.amazonaws.com"
  const GithubThumbprint: string := "6938fd4d98bab03faadb97b34396831e3780aea1"
  const RoleNamePrefix: string := "GitHubTerraformOIDCRole-"
  const ProductionSuffix: string := ":environment:production"

  /** The trust policy document of the role: one `Allow` statement for web
      identity federation, conditioned on the token's subject and audience. */
  datatype TrustPolicy = TrustPolicy(
    version: string, effect: string, federated: string, action: string,
    subject: string, audience: string)

  function RoleName(repo: string): string {
    RoleNamePrefix + repo
  }

  function RoleArn(account: string, roleName: string): string {
    "arn:aws:iam::" + account + ":role/" + roleName
  }

  function ProviderArn(account: string): string {
    "arn:aws:iam::" + account + ":oidc-provider/" + OidcHost
  }

  /** The token subject GitHub issues for jobs in the `production`
      environment of `owner/repo`. */
  function Subject(owner: string, repo: string): string {
    "repo:" + owner + "/" + repo + ProductionSuffix
  }

  function TrustPolicyFor(providerArn: string, owner: string, repo: string): TrustPolicy {
    TrustPolicy("2012-10-17", "Allow", providerArn, "sts:AssumeRoleWithWebIdentity",
                Subject(owner, repo), StsAudience)
  }

  /** A string split at the first occurrence of `sep` splits one way only. */
  lemma {:induction false} SplitUnique(x1: string, y1: string, x2: string, y2: string, sep: char)
    requires sep !in x1 && sep !in x2
    requires x1 + [sep] + y1 == x2 + [sep] + y2
    ensures x1 == x2 && y1 == y2
  {
    var s := x1 + [sep] + y1;
    assert s == x2 + [sep] + y2;
    assert forall k :: 0 <= k < |x1| ==> s[k] == x1[k] != sep;
    assert forall k :: 0 <= k < |x2| ==> s[k] == x2[k] != sep;
    assert s[|x1|] == sep && s[|x2|] == sep;
    assert x1 == s[..|x1|] && x2 == s[..|x2|];
    assert y1 == s[|x1| + 1..] && y2 == s[|x2| + 1..];
  }

  lemma OwnerHasNoSlash(owner: string)
    requires ValidOwner(owner)
    ensures '/' !in owner
  {
  }

  /** Distinct repositories get distinct trust subjects: the role admits the
      production environment of the one repository it was created for. */
  lemma {:induction false} SubjectInjective(o1: string, r1: string, o2: string, r2: string)
    requires ValidOwner(o1) && ValidOwner(o2)
    requires Subject(o1, r1) == Subject(o2, r2)
    ensures o1 == o2 && r1 == r2
  {
    OwnerHasNoSlash(o1);
    OwnerHasNoSlash(o2);
    var a := o1 + ['/'] + r1;
    var b := o2 + ['/'] + r2;
    var s := Subject(o1, r1);
    assert s == "repo:" + a + ProductionSuffix;
    assert Subject(o2, r2) == "repo:" + b + ProductionSuffix;
    assert a == s[5..|s| - |ProductionSuffix|];
    assert b == s[5..|s| - |ProductionSuffix|];
    SplitUnique(o1, r1, o2, r2, '/');
  }

  /** Appending to a common prefix is injective. */
  lemma CommonPrefix(p: string, x: string, y: string)
    requires p + x == p + y
    ensures x == y
  {
    assert x == (p + x)[|p|..];
  }

  lemma RoleArnParts(a: string, r: string)
    ensures RoleArn(a, RoleName(r)) == "arn:aws:iam::" + (a + [':'] + ("role/" + RoleNamePrefix + r))
  {
  }

  /** Distinct (account, repository) pairs get distinct role ARNs. Account
      ids contain no `:`. */
  lemma {:induction false} RoleArnInjective(a1: string, r1: string, a2: string, r2: string)
    requires ':' !in a1 && ':' !in a2
    requires RoleArn(a1, RoleName(r1)) == RoleArn(a2, RoleName(r2))
    ensures a1 == a2 && r1 == r2
  {
    RoleArnParts(a1, r1);
    RoleArnParts(a2, r2);
    CommonPrefix("arn:aws:iam::", a1 + [':'] + ("role/" + RoleNamePrefix + r1), a2 + [':'] + ("role/" + RoleNamePrefix + r2));
    SplitUnique(a1, "role/" + RoleNamePrefix + r1, a2, "role/" + RoleNamePrefix + r2, ':');
    CommonPrefix("role/" + RoleNamePrefix, r1, r2);
  }

  // ---------------------------------------------------------------------
  // Readiness polling

  /** What one call of a status getter gives: a status, or an exception. */
  datatype Probe = Status(value: string) | Raised(message: string)

  const MaxRetries: nat := 10

  // ---------------------------------------------------------------------
  // The manager object

  /** What the cloud account answers: its id, whether the GitHub OIDC
      provider and the role already exist, and the ARN a provider creation
      would return. */
  datatype Aws = Aws(account: string, providerExists: bool, createdProviderArn: string, roleExists: bool)

  /** The provider API calls the manager issues. */
  datatype ApiCall =
    | GetCallerIdentity
    | GetOidcProvider(arn: string)
    | CreateOidcProvider(url: string, clientId: string, thumbprint: string)
    | GetRole(roleName: string)
    | UpdateAssumeRolePolicy(roleName: string, policy: TrustPolicy)
    | CreateRole(roleName: string, policy: TrustPolicy)
    | PutRolePolicy(roleName: string, policyName: string)

  /** The `ValueError` that `create_github_oidc_role` raises. */
  datatype RoleError = InvalidRepository(owner: string, repo: string)

  /** The provider ARN `ensure_github_oidc_provider` returns. */
  function UsedProviderArn(aws: Aws): string {
    if aws.providerExists then ProviderArn(aws.account) else aws.createdProviderArn
  }

  /** The calls `ensure_github_oidc_provider` makes. */
  function ProviderCalls(aws: Aws): seq<ApiCall> {
    [GetCallerIdentity, GetOidcProvider(ProviderArn(aws.account))]
    + (if aws.providerExists then []
       else [CreateOidcProvider("https://" + OidcHost, StsAudience, GithubThumbprint)])
  }

  /** The calls `create_github_oidc_role` makes for a valid repository. */
  function RoleCalls(owner: string, repo: string, aws: Aws): seq<ApiCall> {
    var name := RoleName(repo);
    var policy := TrustPolicyFor(UsedProviderArn(aws), owner, repo);
    [GetCallerIdentity] + ProviderCalls(aws) + [GetRole(name)]
    + (if aws.roleExists then [UpdateAssumeRolePolicy(name, policy)] else [CreateRole(name, policy)])
    + [PutRolePolicy(name, "TerraformStateAccess")]
  }

  /** The role's trust policy is written exactly once, on the role named
      after the repository, and admits only that repository's production
      environment with the STS audience; the permission policy is attached
      last. */
  lemma RoleCallsWriteOneTrustPolicy(owner: string, repo: string, aws: Aws)
    ensures var cs := RoleCalls(owner, repo, aws);
      && cs[0] == GetCallerIdentity
      && cs[|cs| - 1] == PutRolePolicy(RoleName(repo), "TerraformStateAccess")
      && |cs| == (if aws.providerExists then 6 else 7)
      && var w := cs[|cs| - 2];
      && (if aws.roleExists then w.UpdateAssumeRolePolicy? else w.CreateRole?)
      && w.roleName == RoleName(repo)
      && w.policy.federated == UsedProviderArn(aws)
      && w.policy.subject == Subject(owner, repo)
      && w.policy.audience == StsAudience
      && forall i :: 0 <= i < |cs| - 2 ==> !cs[i].UpdateAssumeRolePolicy? && !cs[i].CreateRole?
  {
  }

  class Manager {
    var region: string
    var bucketName: string
    var ddbTable: string
    /** The provider API calls made so far, oldest first. */
    var calls: seq<ApiCall>

    /** The names every manager holds have passed validation: a guarantee
        the constructor and `New` give to callers; no method here needs it. */
    ghost predicate Valid()
      reads this
    {
      ValidBucketName(bucketName) && ValidTableName(ddbTable)
    }

    /** The field assignments of `__init__`, reached only after its checks. */
    constructor (region: string, bucketName: string, ddbTable: string)
      requires ValidBucketName(bucketName) && ValidTableName(ddbTable)
      ensures this.region == region && this.bucketName == bucketName && this.ddbTable == ddbTable
      ensures calls == [] && Valid()
    {
      this.region := region;
      this.bucketName := bucketName;
      this.ddbTable := ddbTable;
      calls := [];
    }

    /** `TerraformBackendManager(region, bucket_name, ddb_table)`: the checks
        in order, and an object only when all pass. */
    static method New(region: string, bucketName: string, regions: set<string>, ddbTable: string := DefaultLockTable)
      returns (r: Result<Manager, InitError>)
      ensures r.Failure? <==> InitCheck(region, bucketName, ddbTable, regions).Some?
      ensures r.Failure? ==> InitCheck(region, bucketName, ddbTable, regions) == Some(r.error)
      ensures r.Success? ==> fresh(r.value) && r.value.Valid() && r.value.calls == []
      ensures r.Success? ==> r.value.region == region && r.value.bucketName == bucketName && r.value.ddbTable == ddbTable
    {
      if region !in regions {
        return Failure(InvalidRegion(region));
      }
      if !ValidBucketName(bucketName) {
        return Failure(InvalidBucketName(bucketName));
      }
      if !ValidTableName(ddbTable) {
        return Failure(InvalidTableName(ddbTable));
      }
      var m := new Manager(region, bucketName, ddbTable);
      return Success(m);
    }

    method GetAccountId(aws: Aws) returns (account: string)
      modifies this`calls
      ensures account == aws.account
      ensures calls == old(calls) + [GetCallerIdentity]
    {
      calls := calls + [GetCallerIdentity];
      account := aws.account;
    }

    /** `ensure_github_oidc_provider`: look the provider up, create it when
        missing. */
    method EnsureGithubOidcProvider(aws: Aws) returns (arn: string)
      modifies this`calls
      ensures arn == UsedProviderArn(aws)
      ensures calls == old(calls) + ProviderCalls(aws)
    {
      var account := GetAccountId(aws);
      var providerArn := ProviderArn(account);
      calls := calls + [GetOidcProvider(providerArn)];
      if aws.providerExists {
        return providerArn;
      }
      calls := calls + [CreateOidcProvider("https://" + OidcHost, StsAudience, GithubThumbprint)];
      arn := aws.createdProviderArn;
    }

    /** `create_github_oidc_role`: an invalid repository is refused before
        any provider call; otherwise the role is created or its trust policy
        replaced, the state-access policy attached, and the role ARN
        returned. */
    method CreateGithubOidcRole(owner: string, repo: string, aws: Aws) returns (r: Result<string, RoleError>)
      modifies this`calls
      ensures !ValidGithubRepo(owner, repo) ==> r == Failure(InvalidRepository(owner, repo)) && calls == old(calls)
      ensures ValidGithubRepo(owner, repo) ==>
        r == Success(RoleArn(aws.account, RoleName(repo))) && calls == old(calls) + RoleCalls(owner, repo, aws)
    {
      if !ValidGithubRepo(owner, repo) {
        return Failure(InvalidRepository(owner, repo));
      }
      var roleName := RoleName(repo);
      var account := GetAccountId(aws);
      var providerArn := EnsureGithubOidcProvider(aws);
      var trust := TrustPolicyFor(providerArn, owner, repo);
      calls := calls + [GetRole(roleName)];
      if aws.roleExists {
        calls := calls + [UpdateAssumeRolePolicy(roleName, trust)];
      } else {
        calls := calls + [CreateRole(roleName, trust)];
      }
      calls := calls + [PutRolePolicy(roleName, "TerraformStateAccess")];
      r := Success(RoleArn(account, roleName));
    }

    /** `wait_for_resource`: poll `probe(i)` on attempt `i` until it reports
        `expected`, for at most `MaxRetries` attempts; an exception is a
        failed attempt. `attempts` is the number of probes made. */
    method WaitForResource(probe: nat -> Probe, expected: string) returns (ready: bool, attempts: nat)
      ensures 1 <= attempts <= MaxRetries
      ensures ready <==> exists i :: 0 <= i < MaxRetries && probe(i) == Status(expected)
      ensures ready ==> probe(attempts - 1) == Status(expected)
      ensures !ready ==> attempts == MaxRetries
      ensures forall i :: 0 <= i < attempts - 1 ==> probe(i) != Status(expected)
    {
      var i := 0;
      while i < MaxRetries
        invariant 0 <= i <= MaxRetries
        invariant forall j :: 0 <= j < i ==> probe(j) != Status(expected)
      {
        var result := probe(i);
        if result.Status? && result.value == expected {
          return true, i + 1;
        }
        i := i + 1;
      }
      return false, MaxRetries;
    }
  }
}
