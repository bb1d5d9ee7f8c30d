/**
 The in-memory auth store (crates/wa-client/examples/custom_auth_store.rs and
 crates/wa-store/src/memory.rs): one map from namespaced keys to bytes, whose keys
 can be listed in pages, and transactions that work on a copy.
 */
module Store {
  import opened Prelude
  import opened Text

  /** The namespaces that the modelled code uses; every other one by number. */
  datatype Namespace =
    | Credentials | AppStateSyncKey | AppStateSyncBlocked | AppStateSyncVersion | OtherNamespace(id: nat)

  datatype StoreKey = StoreKey(ns: Namespace, key: Bytes)

  type Contents = map<StoreKey, Bytes>

  function Lookup(m: Contents, ns: Namespace, key: Bytes): Option<Bytes> {
    if StoreKey(ns, key) in m then Some(m[StoreKey(ns, key)]) else None
  }

  // ----- Listing -------------------------------------------------------------

  predicate IsAfter(after: Option<Bytes>, key: Bytes) {
    after.None? || Less(after.value, key)
  }

  /** The keys of a namespace that come after a given one. */
  function KeySet(m: Contents, ns: Namespace, after: Option<Bytes>): set<Bytes> {
    set k | k in m && k.ns == ns && IsAfter(after, k.key) :: k.key
  }

  predicate IsAscending(s: seq<Bytes>) {
    forall i, j :: 0 <= i < j < |s| ==> Less(s[i], s[j])
  }

  function Members(s: seq<Bytes>): set<Bytes> {
    set k | k in s
  }

  function InsertKey(s: seq<Bytes>, k: Bytes): seq<Bytes> {
    if s == [] || Less(k, s[0]) then [k] + s else [s[0]] + InsertKey(s[1..], k)
  }

  lemma {:induction false} InsertKeyMembers(s: seq<Bytes>, k: Bytes)
    ensures Members(InsertKey(s, k)) == Members(s) + {k}
    decreases |s|
  {
    if s == [] || Less(k, s[0]) {
      assert Members([k] + s) == Members(s) + {k};
    } else {
      InsertKeyMembers(s[1..], k);
      assert s == [s[0]] + s[1..];
      assert Members([s[0]] + InsertKey(s[1..], k)) == {s[0]} + Members(InsertKey(s[1..], k));
      assert Members([s[0]] + s[1..]) == {s[0]} + Members(s[1..]);
    }
  }

  /** A first element below everything else keeps a list ascending. */
  lemma AscendingCons(first: Bytes, rest: seq<Bytes>)
    requires IsAscending(rest) && forall k :: k in Members(rest) ==> Less(first, k)
    ensures IsAscending([first] + rest)
  {
    var s := [first] + rest;
    forall i, j | 0 <= i < j < |s| ensures Less(s[i], s[j]) {
      assert s[j] == rest[j - 1] && s[j] in Members(rest);
      if i > 0 {
        assert s[i] == rest[i - 1];
      }
    }
  }

  lemma {:induction false} InsertKeyAscending(s: seq<Bytes>, k: Bytes)
    requires IsAscending(s) && k !in s
    ensures IsAscending(InsertKey(s, k))
    decreases |s|
  {
    if s == [] {
    } else if Less(k, s[0]) {
      forall x | x in Members(s) ensures Less(k, x) {
        var i :| 0 <= i < |s| && s[i] == x;
        if i > 0 {
          LessTransitive(k, s[0], x);
        }
      }
      AscendingCons(k, s);
    } else {
      LessTotal(k, s[0]);
      InsertKeyAscending(s[1..], k);
      InsertKeyMembers(s[1..], k);
      AscendingCons(s[0], InsertKey(s[1..], k));
    }
  }

  /** The members of a set in ascending order. */
  ghost function Ascending(s: set<Bytes>): (r: seq<Bytes>)
    ensures IsAscending(r) && Members(r) == s
    decreases |s|
  {
    if s == {} then []
    else
      var k :| k in s;
      var rest := Ascending(s - {k});
      InsertKeyMembers(rest, k);
      InsertKeyAscending(rest, k);
      InsertKey(rest, k)
  }

  lemma NoMembers(s: seq<Bytes>)
    ensures Members(s) == {} <==> s == []
  {
    if s != [] {
      assert s[0] in Members(s);
    }
  }

  /** An ascending list is determined by its members. */
  lemma {:induction false} AscendingUnique(a: seq<Bytes>, b: seq<Bytes>)
    requires IsAscending(a) && IsAscending(b) && Members(a) == Members(b)
    ensures a == b
    decreases |a|
  {
    NoMembers(a);
    NoMembers(b);
    if a != [] {
      SameHead(a, b);
      TailMembers(a);
      TailMembers(b);
      AscendingUnique(a[1..], b[1..]);
      assert a == [a[0]] + a[1..] && b == [b[0]] + b[1..];
    }
  }

  lemma SameHead(a: seq<Bytes>, b: seq<Bytes>)
    requires IsAscending(a) && IsAscending(b) && Members(a) == Members(b) && a != [] && b != []
    ensures a[0] == b[0]
  {
    assert a[0] in Members(b) && b[0] in Members(a);
    var i :| 0 <= i < |b| && b[i] == a[0];
    var j :| 0 <= j < |a| && a[j] == b[0];
    if i > 0 && j > 0 {
      LessTransitive(a[0], b[0], a[0]);
      LessIrreflexive(a[0]);
    }
  }

  lemma TailMembers(s: seq<Bytes>)
    requires IsAscending(s) && s != []
    ensures Members(s[1..]) == Members(s) - {s[0]} && IsAscending(s[1..])
  {
    LessIrreflexive(s[0]);
    assert s == [s[0]] + s[1..];
    forall k ensures k in Members(s[1..]) <==> k in Members(s) - {s[0]} {
      if k in s[1..] {
        var i :| 0 <= i < |s[1..]| && s[1..][i] == k;
        assert s[i + 1] == k;
      }
    }
  }

  /** `list_keys`: at most `limit` keys after `after`, in ascending order. */
  ghost function Page(m: Contents, ns: Namespace, after: Option<Bytes>, limit: nat): seq<Bytes> {
    var all := Ascending(KeySet(m, ns, after));
    if |all| <= limit then all else all[..limit]
  }

  predicate AgreeAfter(m: Contents, n: Contents, ns: Namespace, last: Bytes) {
    KeySet(m, ns, Some(last)) == KeySet(n, ns, Some(last))
  }

  /**
   Whatever happens to keys up to the last one of a page, and whatever values
   change, the rest of the listing is what follows that page.
   */
  lemma NextPages(m: Contents, n: Contents, ns: Namespace, after: Option<Bytes>, count: nat)
    requires 0 < count <= |Ascending(KeySet(m, ns, after))|
    requires AgreeAfter(m, n, ns, Ascending(KeySet(m, ns, after))[count - 1])
    ensures Ascending(KeySet(n, ns, Some(Ascending(KeySet(m, ns, after))[count - 1])))
         == Ascending(KeySet(m, ns, after))[count..]
  {
    var all := Ascending(KeySet(m, ns, after));
    var last := all[count - 1];
    var rest := all[count..];
    assert last in Members(all);
    forall k | k in Members(rest) ensures k in KeySet(m, ns, Some(last)) {
      var i :| 0 <= i < |rest| && rest[i] == k;
      assert all[count + i] == k && k in Members(all);
    }
    forall k | k in KeySet(m, ns, Some(last)) ensures k in Members(rest) {
      if after.Some? {
        LessTransitive(after.value, last, k);
      }
      assert k in Members(all);
      var i :| 0 <= i < |all| && all[i] == k;
      LessIrreflexive(last);
      LessAsymmetric(last, k);
      assert rest[i - count] == k;
    }
    AscendingUnique(Ascending(KeySet(n, ns, Some(last))), rest);
  }

  /** A page that is not full is the last one: no later page holds anything. */
  lemma ShortPageIsLast(m: Contents, ns: Namespace, after: Option<Bytes>, limit: nat, last: Bytes, more: nat)
    requires 0 < |Page(m, ns, after, limit)| < limit
    requires last == Page(m, ns, after, limit)[|Page(m, ns, after, limit)| - 1]
    ensures Page(m, ns, Some(last), more) == []
  {
    var all := Ascending(KeySet(m, ns, after));
    assert Page(m, ns, after, limit) == all;
    NextPages(m, m, ns, after, |all|);
  }

  lemma NothingLeft(m: Contents, ns: Namespace, after: Option<Bytes>, limit: nat)
    requires limit > 0 && Page(m, ns, after, limit) == []
    ensures Ascending(KeySet(m, ns, after)) == []
  {
  }

  /** What is left to visit after a page: the next listing, or nothing if the page was not full. */
  lemma PageAdvances(m: Contents, n: Contents, ns: Namespace, after: Option<Bytes>, limit: nat, keys: seq<Bytes>,
                     visited: seq<Bytes>)
    requires keys == Page(m, ns, after, limit) && keys != [] && AgreeAfter(m, n, ns, keys[|keys| - 1])
    ensures visited + Ascending(KeySet(m, ns, after))
         == (visited + keys) + (if |keys| == limit then Ascending(KeySet(n, ns, Some(keys[|keys| - 1]))) else [])
  {
    var all := Ascending(KeySet(m, ns, after));
    assert keys == all[..|keys|];
    NextPages(m, n, ns, after, |keys|);
    assert all == keys + all[|keys|..];
    Assoc(visited, keys, all[|keys|..]);
  }

  /** Part of a set has been collected in ascending order. */
  ghost predicate Collected(keys: seq<Bytes>, rest: set<Bytes>, all: set<Bytes>) {
    IsAscending(keys) && Members(keys) + rest == all && Members(keys) !! rest
  }

  lemma CollectStep(keys: seq<Bytes>, rest: set<Bytes>, all: set<Bytes>, k: Bytes)
    requires Collected(keys, rest, all) && k in rest
    ensures Collected(InsertKey(keys, k), rest - {k}, all)
  {
    InsertKeyMembers(keys, k);
    InsertKeyAscending(keys, k);
  }

  // ----- The store -----------------------------------------------------------

  /** What becomes of an entry: it goes, or it holds this value. */
  type Rule = (Bytes, Bytes) -> Option<Bytes>

  /** A rule applied to some keys of a namespace. */
  function Revised(m: Contents, ns: Namespace, keys: set<Bytes>, rule: Rule): Contents {
    map k | k in m && (k.ns == ns && k.key in keys ==> rule(k.key, m[k]).Some?)
      :: if k.ns == ns && k.key in keys then rule(k.key, m[k]).value else m[k]
  }

  /** Takes the keys in an unspecified order and sorts them. */
  method Sort(found: set<Bytes>) returns (keys: seq<Bytes>)
    ensures keys == Ascending(found)
  {
    var rest := found;
    keys := [];
    while rest != {}
      invariant Collected(keys, rest, found)
      decreases |rest|
    {
      var k :| k in rest;
      CollectStep(keys, rest, found, k);
      keys := InsertKey(keys, k);
      rest := rest - {k};
    }
    AscendingUnique(keys, Ascending(found));
  }

  class AuthStore {
    var entries: Contents

    constructor ()
      ensures entries == map[]
    {
      entries := map[];
    }

    method Get(ns: Namespace, key: Bytes) returns (value: Option<Bytes>)
      ensures value == Lookup(entries, ns, key)
    {
      if StoreKey(ns, key) in entries {
        return Some(entries[StoreKey(ns, key)]);
      }
      return None;
    }

    method Set(ns: Namespace, key: Bytes, value: Bytes)
      modifies this
      ensures entries == old(entries)[StoreKey(ns, key) := value]
    {
      entries := entries[StoreKey(ns, key) := value];
    }

    method Delete(ns: Namespace, key: Bytes)
      modifies this
      ensures entries == old(entries) - {StoreKey(ns, key)}
    {
      entries := entries - {StoreKey(ns, key)};
    }

    /** Collects the matching keys in the map's own order, sorts and truncates them. */
    method ListKeys(ns: Namespace, after: Option<Bytes>, limit: nat) returns (keys: seq<Bytes>)
      ensures keys == Page(entries, ns, after, limit)
    {
      if limit == 0 {
        return [];
      }
      keys := Sort(set k | k in entries && k.ns == ns && IsAfter(after, k.key) :: k.key);
      assert keys == Ascending(KeySet(entries, ns, after));
      if |keys| > limit {
        keys := keys[..limit];
      }
    }

    /**
     The paging loop of `prune_expired_tc_tokens`: page after page, at least one key
     each, until one is empty or not full, deleting or rewriting entries of a page
     before the next is asked for. It visits every key of the namespace exactly once,
     in order, and does to each entry what the rule says of it.
     */
    method Sweep(ns: Namespace, batchSize: nat, rule: Rule) returns (visited: seq<Bytes>)
      modifies this
      ensures visited == Ascending(KeySet(old(entries), ns, None))
      ensures entries == Revised(old(entries), ns, KeySet(old(entries), ns, None), rule)
    {
      var limit := if batchSize == 0 then 1 else batchSize;
      var after: Option<Bytes> := None;
      visited := [];
      ghost var all := Ascending(KeySet(entries, ns, None));
      var more := true;
      while more
        invariant Swept(old(entries), entries, ns, visited, rule)
        invariant all == visited + (if more then Ascending(KeySet(entries, ns, after)) else [])
        decreases more, |all| - |visited|
      {
        var keys := ListKeys(ns, after, limit);
        if keys == [] {
          NothingLeft(entries, ns, after, limit);
          break;
        }
        ghost var start, before := after, entries;
        after := Some(keys[|keys| - 1]);
        PagePrefix(before, ns, start, limit, visited, all);
        SweepPage(ns, keys, rule, old(entries), visited);
        PageAdvances(before, entries, ns, start, limit, keys, visited);
        visited := visited + keys;
        more := |keys| == limit;
      }
    }

    /** One page of the sweep. */
    method SweepPage(ns: Namespace, keys: seq<Bytes>, rule: Rule, ghost start: Contents, ghost seen: seq<Bytes>)
      requires keys != [] && IsAscending(seen + keys) && Swept(start, entries, ns, seen, rule)
      modifies this
      ensures Swept(start, entries, ns, seen + keys, rule)
      ensures AgreeAfter(old(entries), entries, ns, keys[|keys| - 1])
    {
      assert seen + keys[..0] == seen;
      for i := 0 to |keys|
        invariant AgreeAfter(old(entries), entries, ns, keys[|keys| - 1])
        invariant Swept(start, entries, ns, seen + keys[..i], rule)
      {
        SweepStep(start, entries, ns, seen, keys, i, rule);
        var value := Get(ns, keys[i]);
        if value.Some? {
          var next := rule(keys[i], value.value);
          if next.Some? {
            Set(ns, keys[i], next.value);
          } else {
            Delete(ns, keys[i]);
          }
        }
      }
      assert keys[..|keys|] == keys;
    }
  }

  /** What a sweep has done once it has seen some keys. */
  ghost predicate Swept(start: Contents, now: Contents, ns: Namespace, seen: seq<Bytes>, rule: Rule) {
    now == Revised(start, ns, Members(seen), rule)
  }

  /** A page continues the listing, so that the keys seen are still ascending. */
  lemma PagePrefix(m: Contents, ns: Namespace, after: Option<Bytes>, limit: nat, visited: seq<Bytes>, all: seq<Bytes>)
    requires all == visited + Ascending(KeySet(m, ns, after)) && IsAscending(all)
    ensures IsAscending(visited + Page(m, ns, after, limit))
  {
    var seen := visited + Page(m, ns, after, limit);
    assert seen == all[..|seen|];
  }

  /** One entry under the rule. */
  function Entry(m: Contents, ns: Namespace, key: Bytes, rule: Rule): Contents {
    var k := StoreKey(ns, key);
    if k !in m then m
    else if rule(key, m[k]).Some? then m[k := rule(key, m[k]).value]
    else m - {k}
  }

  lemma SweepStep(start: Contents, now: Contents, ns: Namespace, seen: seq<Bytes>, keys: seq<Bytes>, i: nat, rule: Rule)
    requires i < |keys| && IsAscending(seen + keys) && Swept(start, now, ns, seen + keys[..i], rule)
    ensures Swept(start, Entry(now, ns, keys[i], rule), ns, seen + keys[..i + 1], rule)
    ensures AgreeAfter(now, Entry(now, ns, keys[i], rule), ns, keys[|keys| - 1])
  {
    var all, key, last := seen + keys, keys[i], keys[|keys| - 1];
    assert all[|seen| + i] == key && all[|all| - 1] == last;
    LessIrreflexive(key);
    if i < |keys| - 1 {
      LessAsymmetric(key, last);
    }
    EntryKeepsLater(now, ns, key, last, rule);
    assert keys[..i + 1] == keys[..i] + [key];
    Assoc(seen, keys[..i], [key]);
    assert seen + keys[..i] == all[..|seen| + i];
    NotBefore(all, |seen| + i);
    EntryRevised(start, ns, seen + keys[..i], key, rule);
  }

  /** No key of an ascending list comes again. */
  lemma NotBefore(s: seq<Bytes>, i: nat)
    requires i < |s| && IsAscending(s)
    ensures s[i] !in s[..i]
  {
    LessIrreflexive(s[i]);
  }

  lemma EntryKeepsLater(m: Contents, ns: Namespace, key: Bytes, last: Bytes, rule: Rule)
    requires !Less(last, key)
    ensures AgreeAfter(m, Entry(m, ns, key, rule), ns, last)
  {
    var n := Entry(m, ns, key, rule);
    forall k ensures k in KeySet(m, ns, Some(last)) <==> k in KeySet(n, ns, Some(last)) {
      if k in KeySet(m, ns, Some(last)) {
        assert StoreKey(ns, k) in n;
      }
    }
  }

  lemma EntryRevised(m: Contents, ns: Namespace, seen: seq<Bytes>, key: Bytes, rule: Rule)
    requires key !in seen
    ensures Entry(Revised(m, ns, Members(seen), rule), ns, key, rule) == Revised(m, ns, Members(seen + [key]), rule)
  {
    assert Members(seen + [key]) == Members(seen) + {key};
  }

  /** A transaction's view: a copy that the store takes over only if the work succeeds. */
  class Transaction {
    var entries: Contents

    constructor (snapshot: Contents)
      ensures entries == snapshot
    {
      entries := snapshot;
    }

    method Get(ns: Namespace, key: Bytes) returns (value: Option<Bytes>)
      ensures value == Lookup(entries, ns, key)
    {
      if StoreKey(ns, key) in entries {
        return Some(entries[StoreKey(ns, key)]);
      }
      return None;
    }

    method Set(ns: Namespace, key: Bytes, value: Bytes)
      modifies this
      ensures entries == old(entries)[StoreKey(ns, key) := value]
    {
      entries := entries[StoreKey(ns, key) := value];
    }

    method Delete(ns: Namespace, key: Bytes)
      modifies this
      ensures entries == old(entries) - {StoreKey(ns, key)}
    {
      entries := entries - {StoreKey(ns, key)};
    }
  }
}
