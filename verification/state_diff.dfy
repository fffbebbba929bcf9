/** Comparison of two Terraform state snapshots and the text report of
    their differences, as the post-deployment notification handler does it. */
module StateDiff {
  import opened Wrappers
  import opened Strings

  /** The attributes of one resource instance. An attribute stored as JSON
      `null` maps to `None`; attribute values are of an abstract type `V`
      compared by equality. */
  type Attrs<V> = map<string, Option<V>>

  /** Resource key `type.name` to the attributes of that resource's first
      instance. */
  type ResourceMap<V> = map<string, Attrs<V>>

  // A state document, as far as the extraction reads it. `None` stands for a
  // field that is absent from the JSON object.
  datatype Instance<V> = Instance(attributes: Option<Attrs<V>>)
  datatype Resource<V> = Resource(rtype: Option<string>, name: Option<string>,
                                  instances: Option<seq<Instance<V>>>)
  datatype StateDoc<V> = StateDoc(version: Option<int>, terraformVersion: Option<string>,
                                  resources: Option<seq<Resource<V>>>)

  /** The exceptions extraction can raise: `KeyError` for a missing `type` or
      `name`, `IndexError` for an empty `instances` list. */
  datatype ExtractError = KeyError(key: string) | IndexError

  /** The state used in place of a snapshot object that does not exist. */
  function EmptyState<V>(): StateDoc<V> {
    StateDoc(Some(4), Some("1.5.7"), Some([]))
  }

  function Resources<V>(state: StateDoc<V>): seq<Resource<V>> {
    state.resources.GetOr([])
  }

  // ---------------------------------------------------------------------
  // Extraction
  // ---------------------------------------------------------------------

  /** What one entry of `resources` contributes: its key and the attributes
      of its first instance, or the exception evaluating them raises
      (`type` is read before `name`, both before `instances`). */
  function Entry<V>(res: Resource<V>): Result<(string, Attrs<V>), ExtractError> {
    if res.rtype.None? then Failure(KeyError("type"))
    else if res.name.None? then Failure(KeyError("name"))
    else
      var instances := res.instances.GetOr([Instance(Some(map[]))]);
      if |instances| == 0 then Failure(IndexError)
      else Success((res.rtype.value + "." + res.name.value, instances[0].attributes.GetOr(map[])))
  }

  /** The map built from the entries `rs` in order, or the first exception. */
  function Extracted<V>(rs: seq<Resource<V>>): Result<ResourceMap<V>, ExtractError>
    decreases |rs|
  {
    if rs == [] then Success(map[])
    else
      match Extracted(rs[..|rs| - 1])
      case Failure(e) => Failure(e)
      case Success(m) =>
        match Entry(rs[|rs| - 1])
        case Failure(e) => Failure(e)
        case Success(kv) => Success(m[kv.0 := kv.1])
  }

  lemma {:induction false} FailureSticks<V>(rs: seq<Resource<V>>, i: nat)
    requires i <= |rs| && Extracted(rs[..i]).Failure?
    ensures Extracted(rs) == Extracted(rs[..i])
    decreases |rs| - i
  {
    if i < |rs| {
      assert rs[..i + 1][..i] == rs[..i];
      FailureSticks(rs, i + 1);
    } else {
      assert rs[..i] == rs;
    }
  }

  /** `extract_resources`: fills a dict from the `resources` entries. */
  method ExtractResources<V>(state: StateDoc<V>) returns (r: Result<ResourceMap<V>, ExtractError>)
    ensures r == Extracted(Resources(state))
  {
    var resources: ResourceMap<V> := map[];
    var rs := state.resources.GetOr([]);
    for i := 0 to |rs|
      invariant Extracted(rs[..i]) == Success(resources)
    {
      assert rs[..i + 1][..i] == rs[..i];
      var res := rs[i];
      if res.rtype.None? {
        FailureSticks(rs, i + 1);
        return Failure(KeyError("type"));
      }
      if res.name.None? {
        FailureSticks(rs, i + 1);
        return Failure(KeyError("name"));
      }
      var key := res.rtype.value + "." + res.name.value;
      var instances := res.instances.GetOr([Instance(Some(map[]))]);
      if |instances| == 0 {
        FailureSticks(rs, i + 1);
        return Failure(IndexError);
      }
      var attr := instances[0].attributes.GetOr(map[]);
      resources := resources[key := attr];
    }
    assert rs[..|rs|] == rs;
    return Success(resources);
  }

  /** Entry `i` of `rs` is well formed and has key `k`. */
  ghost predicate KeyAt<V>(rs: seq<Resource<V>>, i: int, k: string) {
    0 <= i < |rs| && Entry(rs[i]).Success? && Entry(rs[i]).value.0 == k
  }

  /** Entry `i` is the last one of `rs` with key `k`. */
  ghost predicate LastKeyAt<V>(rs: seq<Resource<V>>, i: int, k: string) {
    KeyAt(rs, i, k) && forall j :: i < j < |rs| ==> !KeyAt(rs, j, k)
  }

  /** Extraction succeeds exactly when every entry is well formed; otherwise
      it fails with the exception of the first malformed entry. */
  lemma {:induction false} ExtractErrors<V>(rs: seq<Resource<V>>)
    ensures Extracted(rs).Success? <==> forall i :: 0 <= i < |rs| ==> Entry(rs[i]).Success?
    ensures Extracted(rs).Failure? ==>
      exists i :: 0 <= i < |rs| && Entry(rs[i]).Failure? && Entry(rs[i]).error == Extracted(rs).error
                  && forall j :: 0 <= j < i ==> Entry(rs[j]).Success?
    decreases |rs|
  {
    if rs != [] {
      var n := |rs| - 1;
      var p := rs[..n];
      ExtractErrors(p);
      assert forall i :: 0 <= i < n ==> p[i] == rs[i];
      if Extracted(p).Failure? {
        var i :| 0 <= i < n && Entry(p[i]).Failure? && Entry(p[i]).error == Extracted(p).error
                  && forall j :: 0 <= j < i ==> Entry(p[j]).Success?;
        assert Entry(rs[i]).Failure?;
      }
    }
  }

  /** The keys of the extracted map are exactly the keys of the entries. */
  lemma {:induction false} ExtractedHasKey<V>(rs: seq<Resource<V>>, m: ResourceMap<V>, k: string)
    requires Extracted(rs) == Success(m)
    ensures k in m <==> exists i :: KeyAt(rs, i, k)
    decreases |rs|
  {
    if rs != [] {
      var n := |rs| - 1;
      var p := rs[..n];
      assert Extracted(p).Success? && Entry(rs[n]).Success?;
      var m0 := Extracted(p).value;
      var kv := Entry(rs[n]).value;
      assert m == m0[kv.0 := kv.1];
      ExtractedHasKey(p, m0, k);
      if k == kv.0 {
        assert KeyAt(rs, n, k);
      } else {
        if k in m0 {
          var i :| KeyAt(p, i, k);
          assert p[i] == rs[i];
          assert KeyAt(rs, i, k);
        }
        if exists i :: KeyAt(rs, i, k) {
          var i :| KeyAt(rs, i, k);
          assert i != n;
          assert p[i] == rs[i];
          assert KeyAt(p, i, k);
        }
      }
    }
  }

  /** Under a key shared by several entries, the LAST entry's attributes
      are the ones kept. */
  lemma {:induction false} ExtractedLastWins<V>(rs: seq<Resource<V>>, m: ResourceMap<V>, i: int, k: string)
    requires Extracted(rs) == Success(m)
    requires LastKeyAt(rs, i, k)
    ensures k in m && m[k] == Entry(rs[i]).value.1
    decreases |rs|
  {
    var n := |rs| - 1;
    var p := rs[..n];
    assert Extracted(p).Success? && Entry(rs[n]).Success?;
    var m0 := Extracted(p).value;
    var kv := Entry(rs[n]).value;
    assert m == m0[kv.0 := kv.1];
    if i < n {
      assert !KeyAt(rs, n, k);
      assert p[i] == rs[i];
      forall j | i < j < n
        ensures !KeyAt(p, j, k)
      {
        assert p[j] == rs[j];
        assert !KeyAt(rs, j, k);
      }
      assert LastKeyAt(p, i, k);
      ExtractedLastWins(p, m0, i, k);
    }
  }

  /** The substitute for a missing snapshot, and a snapshot without a
      `resources` field, both extract to the empty map. */
  lemma EmptyStatesExtractEmpty<V>(version: Option<int>, terraformVersion: Option<string>)
    ensures Extracted(Resources(EmptyState<V>())) == Success(map[])
    ensures Extracted(Resources<V>(StateDoc(version, terraformVersion, None))) == Success(map[])
  {
  }

  // ---------------------------------------------------------------------
  // Classification
  // ---------------------------------------------------------------------

  /** Python's `attrs.get(k)`: an absent attribute reads as `None`. */
  function Get<V>(a: Attrs<V>, k: string): Option<V> {
    if k in a then a[k] else None
  }

  /** The attribute names, over both sides, whose `.get` values differ. */
  function DiffNames<V(==)>(a: Attrs<V>, b: Attrs<V>): set<string> {
    set k | k in a.Keys + b.Keys && Get(a, k) != Get(b, k)
  }

  datatype Classification = Classification(added: set<string>, removed: set<string>, changed: set<string>)

  /** Splits the keys of two resource maps into added, removed and changed
      keys; the remaining keys are unchanged. */
  function Classify<V(==)>(pre: ResourceMap<V>, post: ResourceMap<V>): (c: Classification)
    ensures c.added !! c.removed && c.added !! c.changed && c.removed !! c.changed
    ensures forall k :: k in pre || k in post <==>
      k in c.added || k in c.removed || k in c.changed || (k in pre && k in post && pre[k] == post[k])
    ensures forall k :: k in c.changed ==> k in pre && k in post && pre[k] != post[k]
    ensures forall k :: k in c.added ==> k !in pre
  {
    Classification(post.Keys - pre.Keys, pre.Keys - post.Keys,
                   set k | k in pre.Keys * post.Keys && pre[k] != post[k])
  }

  // ---------------------------------------------------------------------
  // Report
  // ---------------------------------------------------------------------

  const AddedHeader: string := "\n🆕 추가된 리소스:"
  const RemovedHeader: string := "\n❌ 삭제된 리소스:"
  const ChangedHeader: string := "\n🔁 변경된 리소스: "
  const NoChange: string := "✅ 리소스 구성 변경 없음"

  /** Python's `str()` of an attribute value read with `.get`. */
  function Str<V>(v: Option<V>, show: V -> string): string {
    match v
    case None => "None"
    case Some(x) => show(x)
  }

  function AttrLine<V>(k: string, a: Attrs<V>, b: Attrs<V>, show: V -> string): string {
    "    • " + k + ": '" + Str(Get(a, k), show) + "' → '" + Str(Get(b, k), show) + "'"
  }

  function AttrLines<V>(names: seq<string>, a: Attrs<V>, b: Attrs<V>, show: V -> string): seq<string> {
    seq(|names|, i requires 0 <= i < |names| => AttrLine(names[i], a, b, show))
  }

  function Bullets(mark: string, keys: seq<string>): seq<string> {
    seq(|keys|, i requires 0 <= i < |keys| => mark + keys[i])
  }

  /** A header followed by one line per key, or nothing when there is no key. */
  function Section(header: string, mark: string, keys: seq<string>): seq<string> {
    if keys == [] then [] else [header] + Bullets(mark, keys)
  }

  /** The lines for one changed key whose differing attributes are listed in
      the order `names`: nothing at all when that list is empty. */
  function ChangedBlock<V>(key: string, names: seq<string>, a: Attrs<V>, b: Attrs<V>, show: V -> string): seq<string> {
    var lines := AttrLines(names, a, b, show);
    if lines == [] then [] else [ChangedHeader + key] + lines
  }

  function ChangedSections<V>(pre: ResourceMap<V>, post: ResourceMap<V>, keys: seq<string>,
                              orders: seq<seq<string>>, show: V -> string): seq<string>
    requires |orders| == |keys|
    requires forall k :: k in keys ==> k in pre && k in post
    decreases |keys|
  {
    if keys == [] then []
    else
      var n := |keys| - 1;
      ChangedSections(pre, post, keys[..n], orders[..n], show)
        + ChangedBlock(keys[n], orders[n], pre[keys[n]], post[keys[n]], show)
  }

  /** `names` lists the set `s`, each element once, in some order. */
  ghost predicate Enumerates(names: seq<string>, s: set<string>) {
    Elems(names) == s && forall i, j :: 0 <= i < j < |names| ==> names[i] != names[j]
  }

  lemma EnumeratesSingleton(names: seq<string>, x: string)
    requires Enumerates(names, {x})
    ensures names == [x]
  {
    DistinctCard(names);
    assert names[0] in Elems(names);
  }

  /** `orders[i]` is an iteration order of the differing attribute names of
      the `i`-th changed key in ascending key order. Python iterates a fresh
      set there, so any order may occur. The conjunct `keys[i] in keys` is
      always true; it gives the quantifier a trigger that mentions `keys`. */
  ghost predicate ValidOrders<V>(pre: ResourceMap<V>, post: ResourceMap<V>, orders: seq<seq<string>>) {
    var keys := SortedOf(Classify(pre, post).changed);
    && |orders| == |keys|
    && forall i :: 0 <= i < |keys| ==>
         keys[i] in keys && Enumerates(orders[i], DiffNames(pre[keys[i]], post[keys[i]]))
  }

  /** The lines `compare_resources` collects: added keys, removed keys, then
      changed keys, each in ascending order. */
  ghost function Messages<V>(pre: ResourceMap<V>, post: ResourceMap<V>, show: V -> string,
                                 orders: seq<seq<string>>): seq<string>
    requires |orders| == |Classify(pre, post).changed|
  {
    var c := Classify(pre, post);
    Section(AddedHeader, "  + ", SortedOf(c.added))
      + Section(RemovedHeader, "  - ", SortedOf(c.removed))
      + ChangedSections(pre, post, SortedOf(c.changed), orders, show)
  }

  /** The string `compare_resources` returns. */
  ghost function Report<V>(pre: ResourceMap<V>, post: ResourceMap<V>, show: V -> string,
                               orders: seq<seq<string>>): string
    requires |orders| == |Classify(pre, post).changed|
  {
    var ms := Messages(pre, post, show, orders);
    if ms == [] then NoChange else Join(ms, "\n")
  }

  /** The per-key comprehension: the differing attributes of one changed
      resource, in the iteration order of the union of both key sets. */
  method DiffLines<V(==)>(a: Attrs<V>, b: Attrs<V>, show: V -> string)
    returns (diffs: seq<string>, ghost names: seq<string>)
    ensures Enumerates(names, DiffNames(a, b))
    ensures diffs == AttrLines(names, a, b, show)
  {
    diffs, names := [], [];
    var todo := a.Keys + b.Keys;
    while todo != {}
      invariant todo <= a.Keys + b.Keys
      invariant Elems(names) == DiffNames(a, b) - todo
      invariant forall i, j :: 0 <= i < j < |names| ==> names[i] != names[j]
      invariant diffs == AttrLines(names, a, b, show)
      decreases todo
    {
      var k :| k in todo;
      if Get(a, k) != Get(b, k) {
        assert k !in Elems(names);
        assert Elems(names + [k]) == Elems(names) + {k};
        diffs := diffs + [AttrLine(k, a, b, show)];
        names := names + [k];
      } else {
        assert k !in DiffNames(a, b);
      }
      todo := todo - {k};
    }
  }

  /** The first loop of `compare_resources`: the keys present on both
      sides whose attribute maps differ, in set-iteration order. */
  method ChangedKeys<V(==)>(pre: ResourceMap<V>, post: ResourceMap<V>) returns (changed: seq<string>)
    ensures Elems(changed) == Classify(pre, post).changed
  {
    changed := [];
    var todo := pre.Keys * post.Keys;
    while todo != {}
      invariant todo <= pre.Keys * post.Keys
      invariant Elems(changed) == Classify(pre, post).changed - todo
      decreases todo
    {
      var key :| key in todo;
      if pre[key] != post[key] {
        assert Elems(changed + [key]) == Elems(changed) + {key};
        changed := changed + [key];
      }
      todo := todo - {key};
    }
  }

  /** The last loop of `compare_resources`: the lines of the changed
      resources, visited in the order `keys`. */
  method ChangedLines<V(==)>(pre: ResourceMap<V>, post: ResourceMap<V>, keys: seq<string>, show: V -> string)
    returns (lines: seq<string>, ghost orders: seq<seq<string>>)
    requires forall k :: k in keys ==> k in pre && k in post
    ensures |orders| == |keys|
    ensures lines == ChangedSections(pre, post, keys, orders, show)
    ensures forall i :: 0 <= i < |keys| ==> Enumerates(orders[i], DiffNames(pre[keys[i]], post[keys[i]]))
  {
    lines, orders := [], [];
    for j := 0 to |keys|
      invariant |orders| == j
      invariant lines == ChangedSections(pre, post, keys[..j], orders, show)
      invariant EachEnumerates(pre, post, keys[..j], orders)
    {
      var key := keys[j];
      var block;
      ghost var names;
      block, names := ChangedBlockOf(key, pre[key], post[key], show);
      ChangedSectionsSnoc(pre, post, keys, orders, names, j, show);
      assert keys[..j + 1][..j] == keys[..j] && (orders + [names])[..j] == orders;
      lines := lines + block;
      orders := orders + [names];
    }
    assert keys[..|keys|] == keys;
    EachEnumeratesAll(pre, post, keys, orders);
  }

  /** The body of the last loop of `compare_resources` for one changed key:
      its header and attribute lines, or nothing when no attribute line
      differs. */
  method ChangedBlockOf<V(==)>(key: string, preAttr: Attrs<V>, postAttr: Attrs<V>, show: V -> string)
    returns (block: seq<string>, ghost names: seq<string>)
    ensures Enumerates(names, DiffNames(preAttr, postAttr))
    ensures block == ChangedBlock(key, names, preAttr, postAttr, show)
  {
    var diffs;
    diffs, names := DiffLines(preAttr, postAttr, show);
    block := [];
    if diffs != [] {
      block := [ChangedHeader + key] + diffs;
    }
  }

  /** `orders[i]` enumerates the differing attribute names of `keys[i]`,
      stated key by key from the back. */
  ghost predicate EachEnumerates<V>(pre: ResourceMap<V>, post: ResourceMap<V>, keys: seq<string>,
                                    orders: seq<seq<string>>)
    decreases |keys|
  {
    |orders| == |keys|
    && (keys != [] ==>
          var n := |keys| - 1;
          && EachEnumerates(pre, post, keys[..n], orders[..n])
          && keys[n] in pre && keys[n] in post
          && Enumerates(orders[n], DiffNames(pre[keys[n]], post[keys[n]])))
  }

  lemma {:induction false} EachEnumeratesAll<V>(pre: ResourceMap<V>, post: ResourceMap<V>, keys: seq<string>,
                                                orders: seq<seq<string>>)
    requires EachEnumerates(pre, post, keys, orders)
    ensures forall i :: 0 <= i < |keys| ==>
      keys[i] in pre && keys[i] in post && Enumerates(orders[i], DiffNames(pre[keys[i]], post[keys[i]]))
    decreases |keys|
  {
    if keys != [] {
      var n := |keys| - 1;
      EachEnumeratesAll(pre, post, keys[..n], orders[..n]);
      assert forall i :: 0 <= i < n ==> keys[..n][i] == keys[i] && orders[..n][i] == orders[i];
    }
  }

  /** One more visited key appends that key's block. */
  lemma ChangedSectionsSnoc<V>(pre: ResourceMap<V>, post: ResourceMap<V>, keys: seq<string>,
                               orders: seq<seq<string>>, names: seq<string>, j: int, show: V -> string)
    requires 0 <= j < |keys| && |orders| == j
    requires forall k :: k in keys ==> k in pre && k in post
    ensures forall k :: k in keys[..j] ==> k in pre && k in post
    ensures ChangedSections(pre, post, keys[..j + 1], orders + [names], show)
         == ChangedSections(pre, post, keys[..j], orders, show)
            + ChangedBlock(keys[j], names, pre[keys[j]], post[keys[j]], show)
  {
    assert forall k :: k in keys[..j] ==> k in keys;
    assert forall k :: k in keys[..j + 1] ==> k in keys;
    assert keys[..j + 1][..j] == keys[..j];
    assert (orders + [names])[..j] == orders;
  }

  /** `compare_resources`: the report is the one specified by `Report` for
      some iteration order of each changed resource's attributes. */
  method CompareResources<V(==)>(pre: ResourceMap<V>, post: ResourceMap<V>, show: V -> string)
    returns (report: string)
    ensures exists orders :: ValidOrders(pre, post, orders) && report == Report(pre, post, show, orders)
  {
    var added := post.Keys - pre.Keys;
    var removed := pre.Keys - post.Keys;
    var changed := ChangedKeys(pre, post);

    var messages: seq<string> := [];
    if added != {} {
      var keys := SortKeys(added);
      messages := messages + ([AddedHeader] + Bullets("  + ", keys));
    } else {
      assert SortedOf(added) == [];
    }
    assert messages == Section(AddedHeader, "  + ", SortedOf(added));
    ghost var afterAdded := messages;
    if removed != {} {
      var keys := SortKeys(removed);
      messages := messages + ([RemovedHeader] + Bullets("  - ", keys));
    } else {
      assert SortedOf(removed) == [];
    }
    assert messages == afterAdded + Section(RemovedHeader, "  - ", SortedOf(removed));
    var keys := SortKeys(Elems(changed));
    assert forall k :: k in keys ==> k in Elems(keys);
    var lines;
    ghost var orders;
    lines, orders := ChangedLines(pre, post, keys, show);
    messages := messages + lines;
    report := if messages != [] then Join(messages, "\n") else NoChange;
    ghost var c := Classify(pre, post);
    assert c.added == added && c.removed == removed;
    assert messages == Messages(pre, post, show, orders);
    assert ValidOrders(pre, post, orders);
  }

  // ---------------------------------------------------------------------
  // Properties of the report
  // ---------------------------------------------------------------------

  lemma {:induction false} ChangedSectionsStartWithHeader<V>(pre: ResourceMap<V>, post: ResourceMap<V>,
      keys: seq<string>, orders: seq<seq<string>>, show: V -> string)
    requires |orders| == |keys|
    requires forall k :: k in keys ==> k in pre && k in post
    ensures var cs := ChangedSections(pre, post, keys, orders, show);
            cs != [] ==> |cs[0]| > 0 && cs[0][0] == '\n'
    decreases |keys|
  {
    if keys != [] {
      var n := |keys| - 1;
      assert forall k :: k in keys[..n] ==> k in keys;
      ChangedSectionsStartWithHeader(pre, post, keys[..n], orders[..n], show);
    }
  }

  /** The report is the "no change" line exactly when no line was collected,
      and it is never empty. */
  lemma ReportNoChangeIff<V>(pre: ResourceMap<V>, post: ResourceMap<V>, show: V -> string,
                                 orders: seq<seq<string>>)
    requires |orders| == |Classify(pre, post).changed|
    ensures Report(pre, post, show, orders) == NoChange <==> Messages(pre, post, show, orders) == []
    ensures Report(pre, post, show, orders) != ""
  {
    var c := Classify(pre, post);
    var ms := Messages(pre, post, show, orders);
    if ms != [] {
      var keys := SortedOf(c.changed);
      assert forall k :: k in keys ==> k in Elems(keys);
      ChangedSectionsStartWithHeader(pre, post, keys, orders, show);
      assert |ms[0]| > 0 && ms[0][0] == '\n';
      var r := Join(ms, "\n");
      assert r[0] == ms[0][0];
      assert NoChange[0] != '\n';
    }
  }

  lemma {:induction false} ChangedSectionsEmptyIff<V>(pre: ResourceMap<V>, post: ResourceMap<V>,
      keys: seq<string>, orders: seq<seq<string>>, show: V -> string)
    requires |orders| == |keys|
    requires forall k :: k in keys ==> k in pre && k in post
    ensures ChangedSections(pre, post, keys, orders, show) == [] <==>
            forall i :: 0 <= i < |keys| ==> orders[i] == []
    decreases |keys|
  {
    if keys != [] {
      var n := |keys| - 1;
      assert forall k :: k in keys[..n] ==> k in keys;
      ChangedSectionsEmptyIff(pre, post, keys[..n], orders[..n], show);
      assert forall i :: 0 <= i < n ==> orders[..n][i] == orders[i];
      assert AttrLines(orders[n], pre[keys[n]], post[keys[n]], show) == [] <==> orders[n] == [];
    }
  }

  lemma SectionEmptyIff(header: string, mark: string, s: set<string>)
    ensures Section(header, mark, SortedOf(s)) == [] <==> s == {}
  {
  }

  /** Every changed key's listing order is empty exactly when no changed
      key has a differing attribute. */
  lemma OrdersEmptyIff<V>(pre: ResourceMap<V>, post: ResourceMap<V>, orders: seq<seq<string>>)
    requires ValidOrders(pre, post, orders)
    ensures (forall i :: 0 <= i < |orders| ==> orders[i] == []) <==>
            (forall k :: k in Classify(pre, post).changed ==> DiffNames(pre[k], post[k]) == {})
  {
    var keys := SortedOf(Classify(pre, post).changed);
    if forall k :: k in Classify(pre, post).changed ==> DiffNames(pre[k], post[k]) == {} {
      forall i | 0 <= i < |orders| ensures orders[i] == [] {
        assert keys[i] in Elems(keys);
        NoElemsIffEmpty(orders[i]);
      }
    }
    if forall i :: 0 <= i < |orders| ==> orders[i] == [] {
      forall k | k in Classify(pre, post).changed ensures DiffNames(pre[k], post[k]) == {} {
        assert k in Elems(keys);
        var i :| 0 <= i < |keys| && keys[i] == k;
        assert Elems(orders[i]) == {};
      }
    }
  }

  /** No line is collected exactly when nothing was added or removed and
      every changed resource has no attribute whose `.get` values differ. */
  lemma MessagesEmptyIff<V>(pre: ResourceMap<V>, post: ResourceMap<V>, show: V -> string,
                            orders: seq<seq<string>>)
    requires ValidOrders(pre, post, orders)
    ensures Messages(pre, post, show, orders) == [] <==>
      var c := Classify(pre, post);
      c.added == {} && c.removed == {} && forall k :: k in c.changed ==> DiffNames(pre[k], post[k]) == {}
  {
    var c := Classify(pre, post);
    var keys := SortedOf(c.changed);
    assert forall k :: k in keys ==> k in Elems(keys);
    ChangedSectionsEmptyIff(pre, post, keys, orders, show);
    SectionEmptyIff(AddedHeader, "  + ", c.added);
    SectionEmptyIff(RemovedHeader, "  - ", c.removed);
    OrdersEmptyIff(pre, post, orders);
  }

  /** Comparing a map with itself reports no change. */
  lemma SelfCompareIsNoChange<V>(m: ResourceMap<V>, show: V -> string, orders: seq<seq<string>>)
    requires ValidOrders(m, m, orders)
    ensures Report(m, m, show, orders) == NoChange
  {
    var c := Classify(m, m);
    assert c.added == {} && c.removed == {} && c.changed == {};
    MessagesEmptyIff(m, m, show, orders);
  }

  /** The differing attribute names are empty exactly when `.get` agrees on
      every name. */
  lemma DiffNamesEmptyIff<V>(a: Attrs<V>, b: Attrs<V>)
    ensures DiffNames(a, b) == {} <==> forall k :: Get(a, k) == Get(b, k)
  {
    if DiffNames(a, b) == {} {
      forall k ensures Get(a, k) == Get(b, k) {
        assert k !in DiffNames(a, b);
      }
    }
  }

  /** A resource whose attribute maps differ but print no difference has an
      attribute that is `None` on one side and absent on the other. */
  lemma SilentChangeIsNoneVersusAbsent<V>(a: Attrs<V>, b: Attrs<V>)
    requires a != b && DiffNames(a, b) == {}
    ensures exists k :: (k in a && k !in b && a[k] == None) || (k in b && k !in a && b[k] == None)
  {
    DiffNamesEmptyIff(a, b);
    assert a.Keys != b.Keys;
    if k :| k in a && k !in b {
      assert Get(a, k) == Get(b, k);
    } else {
      var k :| k in b && k !in a;
      assert Get(a, k) == Get(b, k);
    }
  }

  /** A resource that has `x: null` before and no `x` after is changed, yet
      the report says there is no change. */
  lemma NoneVersusAbsentIsSilent<V>(show: V -> string, orders: seq<seq<string>>)
    requires ValidOrders<V>(map["r" := map["x" := None]], map["r" := map[]], orders)
    ensures Classify<V>(map["r" := map["x" := None]], map["r" := map[]]).changed == {"r"}
    ensures Report<V>(map["r" := map["x" := None]], map["r" := map[]], show, orders) == NoChange
  {
    var pre: ResourceMap<V> := map["r" := map["x" := None]];
    var post: ResourceMap<V> := map["r" := map[]];
    assert pre["r"] != post["r"] by { assert "x" in pre["r"]; }
    var c := Classify(pre, post);
    assert c.changed == {"r"};
    assert DiffNames(pre["r"], post["r"]) == {} by {
      DiffNamesEmptyIff(pre["r"], post["r"]);
    }
    MessagesEmptyIff(pre, post, show, orders);
  }

  /** `str()` of a string value is the string itself. */
  function Verbatim(s: string): string { s }

  function ExamplePre(): ResourceMap<string> {
    map["aws_s3_bucket.x" := map["acl" := Some("private")]]
  }

  function ExamplePost(): ResourceMap<string> {
    map["aws_s3_bucket.x" := map["acl" := Some("public")], "aws_iam_role.y" := map["name" := Some("r")]]
  }

  lemma ExampleClassified()
    ensures Classify(ExamplePre(), ExamplePost())
         == Classification({"aws_iam_role.y"}, {}, {"aws_s3_bucket.x"})
    ensures DiffNames(ExamplePre()["aws_s3_bucket.x"], ExamplePost()["aws_s3_bucket.x"]) == {"acl"}
  {
    var pre, post := ExamplePre(), ExamplePost();
    assert pre["aws_s3_bucket.x"]["acl"] != post["aws_s3_bucket.x"]["acl"];
    assert pre.Keys * post.Keys == {"aws_s3_bucket.x"};
  }

  lemma ExampleOrders(orders: seq<seq<string>>)
    requires ValidOrders(ExamplePre(), ExamplePost(), orders)
    ensures orders == [["acl"]]
  {
    ExampleClassified();
    SingletonSorted("aws_s3_bucket.x");
    EnumeratesSingleton(orders[0], "acl");
    assert orders == [orders[0]];
  }

  lemma ExampleChangedLines()
    ensures ChangedSections(ExamplePre(), ExamplePost(), ["aws_s3_bucket.x"], [["acl"]], Verbatim)
         == [ChangedHeader + "aws_s3_bucket.x", "    • acl: 'private' → 'public'"]
  {
    var a, b := ExamplePre()["aws_s3_bucket.x"], ExamplePost()["aws_s3_bucket.x"];
    assert Str(Get(a, "acl"), Verbatim) == "private" && Str(Get(b, "acl"), Verbatim) == "public";
    assert AttrLine("acl", a, b, Verbatim) == "    • acl: 'private' → 'public'";
    assert AttrLines(["acl"], a, b, Verbatim) == ["    • acl: 'private' → 'public'"];
  }

  /** One added resource and one changed attribute give the added section
      and one changed section with one line. */
  lemma AddedAndChangedExample(orders: seq<seq<string>>)
    requires ValidOrders(ExamplePre(), ExamplePost(), orders)
    ensures Messages(ExamplePre(), ExamplePost(), Verbatim, orders)
         == [AddedHeader, "  + aws_iam_role.y",
             ChangedHeader + "aws_s3_bucket.x", "    • acl: 'private' → 'public'"]
  {
    ExampleOrders(orders);
    ExampleMessages();
  }

  lemma ExampleMessages()
    ensures Classify(ExamplePre(), ExamplePost()) == Classification({"aws_iam_role.y"}, {}, {"aws_s3_bucket.x"})
    ensures Messages(ExamplePre(), ExamplePost(), Verbatim, [["acl"]])
         == [AddedHeader, "  + aws_iam_role.y",
             ChangedHeader + "aws_s3_bucket.x", "    • acl: 'private' → 'public'"]
  {
    ExampleClassified();
    var c := Classify(ExamplePre(), ExamplePost());
    SingletonSorted("aws_iam_role.y");
    SingletonSorted("aws_s3_bucket.x");
    assert SortedOf(c.removed) == [];
    ExampleChangedLines();
    ExampleAddedSection();
    var added := Section(AddedHeader, "  + ", SortedOf(c.added));
    var removed := Section(RemovedHeader, "  - ", SortedOf(c.removed));
    var changed := ChangedSections(ExamplePre(), ExamplePost(), SortedOf(c.changed), [["acl"]], Verbatim);
    assert added == [AddedHeader, "  + aws_iam_role.y"];
    assert removed == [];
    assert changed == [ChangedHeader + "aws_s3_bucket.x", "    • acl: 'private' → 'public'"];
  }

  lemma ExampleAddedSection()
    ensures Section(AddedHeader, "  + ", ["aws_iam_role.y"]) == [AddedHeader, "  + aws_iam_role.y"]
  {
    assert Bullets("  + ", ["aws_iam_role.y"])[0] == "  + " + "aws_iam_role.y" == "  + aws_iam_role.y";
  }

  lemma SingletonSorted(k: string)
    ensures SortedOf({k}) == [k]
  {
    var r := SortedOf({k});
    assert r[0] in Elems(r);
  }

  // ---------------------------------------------------------------------
  // The handler
  // ---------------------------------------------------------------------

  /** Reading one snapshot object: its parsed document, or the error code
      the object store answered with. */
  datatype Fetched<V> = Found(doc: StateDoc<V>) | ClientError(code: string)

  datatype HandlerError = LoadFailed(code: string) | Malformed(cause: ExtractError) | PublishFailed
  datatype HandlerResult = Done(report: string) | Failed(error: HandlerError)

  /** A missing object (`NoSuchKey`) is read as the empty state; any other
      error code is re-raised. */
  function LoadState<V>(f: Fetched<V>): (r: Result<StateDoc<V>, HandlerError>)
    ensures f.Found? ==> r == Success(f.doc)
    ensures f.ClientError? ==> (r.Success? <==> f.code == "NoSuchKey")
    ensures f.ClientError? && r.Success? ==> Extracted(Resources(r.value)) == Success(map[])
  {
    match f
    case Found(doc) => Success(doc)
    case ClientError(code) => if code == "NoSuchKey" then Success(EmptyState()) else Failure(LoadFailed(code))
  }

  /** Loading both snapshots, then extracting both, in the handler's order. */
  function Inputs<V>(preF: Fetched<V>, postF: Fetched<V>): Result<(ResourceMap<V>, ResourceMap<V>), HandlerError> {
    match LoadState(preF)
    case Failure(e) => Failure(e)
    case Success(preState) =>
      match LoadState(postF)
      case Failure(e) => Failure(e)
      case Success(postState) =>
        match Extracted(Resources(preState))
        case Failure(e) => Failure(Malformed(e))
        case Success(pre) =>
          match Extracted(Resources(postState))
          case Failure(e) => Failure(Malformed(e))
          case Success(post) => Success((pre, post))
  }

  /** `lambda_handler` of the comparison: `published` is whether the
      notification service accepted the message. Every exception ends in a
      `Failed` result; none escapes. */
  method LambdaHandler<V(==)>(preF: Fetched<V>, postF: Fetched<V>, show: V -> string, published: bool)
    returns (o: HandlerResult)
    ensures Inputs(preF, postF).Failure? ==> o == Failed(Inputs(preF, postF).error)
    ensures Inputs(preF, postF).Success? && !published ==> o == Failed(PublishFailed)
    ensures Inputs(preF, postF).Success? && published ==>
      o.Done? && exists orders :: ValidOrders(Inputs(preF, postF).value.0, Inputs(preF, postF).value.1, orders)
                                && o.report == Report(Inputs(preF, postF).value.0, Inputs(preF, postF).value.1, show, orders)
  {
    var preState: StateDoc<V>;
    match preF {
      case Found(doc) => preState := doc;
      case ClientError(code) =>
        if code == "NoSuchKey" {
          preState := EmptyState();
        } else {
          return Failed(LoadFailed(code));
        }
    }
    var postState: StateDoc<V>;
    match postF {
      case Found(doc) => postState := doc;
      case ClientError(code) =>
        if code == "NoSuchKey" {
          postState := EmptyState();
        } else {
          return Failed(LoadFailed(code));
        }
    }
    var pre := ExtractResources(preState);
    if pre.Failure? {
      return Failed(Malformed(pre.error));
    }
    var post := ExtractResources(postState);
    if post.Failure? {
      return Failed(Malformed(post.error));
    }
    var result := CompareResources(pre.value, post.value, show);
    if !published {
      return Failed(PublishFailed);
    }
    return Done(result);
  }

  /** A snapshot that does not exist is handled exactly like one whose
      `resources` list is empty or absent. */
  lemma MissingStateIsEmptyState<V>(postF: Fetched<V>, version: Option<int>, terraformVersion: Option<string>,
                                    rs: Option<seq<Resource<V>>>)
    requires rs == None || rs == Some([])
    ensures Inputs(ClientError("NoSuchKey"), postF) == Inputs(Found(StateDoc(version, terraformVersion, rs)), postF)
    ensures Inputs(postF, ClientError("NoSuchKey")) == Inputs(postF, Found(StateDoc(version, terraformVersion, rs)))
  {
  }
}
