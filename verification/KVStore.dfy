/** The session-scoped key-value store with its byte accounting. */
module KVStore {
  import opened Wrappers
  import Text

  const KEY_MAX_LEN := 64
  const VALUE_MAX_BYTES := 64 * 1024
  const STORE_MAX_BYTES := 64 * 1024 * 1024

  type Key = string

  datatype KeyError = EmptyKey | KeyTooLong | BadCharacter
  datatype SetError = ValueTooLarge | StoreFull

  predicate KeyTail(c: char) {
    Text.WordChar(c) || c in " :-"
  }

  function ParseKey(s: string): (r: Result<Key, KeyError>)
    ensures r.Ok? <==> 0 < |s| <= KEY_MAX_LEN && Text.WordChar(s[0]) && forall i :: 0 < i < |s| ==> KeyTail(s[i])
    ensures r.Ok? ==> r.value == s
    ensures r == Err(EmptyKey) <==> s == ""
    ensures r == Err(KeyTooLong) <==> |s| > KEY_MAX_LEN
  {
    if |s| == 0 then Err(EmptyKey)
    else if |s| > KEY_MAX_LEN then Err(KeyTooLong)
    else if Text.WordChar(s[0]) && forall i :: 0 < i < |s| ==> KeyTail(s[i]) then Ok(s)
    else Err(BadCharacter)
  }

  // ------------------------------------------------------------------ the store as a value

  /** The bytes of all values. */
  ghost function Bytes(m: map<Key, string>): nat {
    if m == map[] then 0
    else
      var k :| k in m;
      |m[k]| + Bytes(m - {k})
  }

  lemma {:induction false} BytesWithout(m: map<Key, string>, k: Key)
    requires k in m
    ensures Bytes(m) == |m[k]| + Bytes(m - {k})
  {
    var j :| j in m && Bytes(m) == |m[j]| + Bytes(m - {j});
    if j != k {
      BytesWithout(m - {j}, k);
      BytesWithout(m - {k}, j);
      assert m - {j} - {k} == m - {k} - {j};
    }
  }

  lemma BytesOfUpdate(m: map<Key, string>, k: Key, v: string)
    ensures Bytes(m[k := v]) == Bytes(m) - (if k in m then |m[k]| else 0) + |v|
  {
    BytesWithout(m[k := v], k);
    if k in m {
      BytesWithout(m, k);
      assert m[k := v] - {k} == m - {k};
    } else {
      assert m[k := v] - {k} == m;
    }
  }

  /** What a Set does to the stored pairs, or why it is refused. */
  function SetResult(m: map<Key, string>, total: int, k: Key, v: string): Result<map<Key, string>, SetError> {
    var delta := |v| - (if k in m then |m[k]| else 0);
    if |v| > VALUE_MAX_BYTES then Err(ValueTooLarge)
    else if total + delta > STORE_MAX_BYTES then Err(StoreFull)
    else Ok(m[k := v])
  }

  ghost predicate WithinLimits(m: map<Key, string>) {
    Bytes(m) <= STORE_MAX_BYTES && forall k :: k in m ==> |m[k]| <= VALUE_MAX_BYTES
  }

  datatype Call = Set(k: Key, v: string) | Delete(k: Key)

  function After(m: map<Key, string>, total: int, c: Call): (map<Key, string>, int) {
    match c
    case Set(k, v) =>
      var r := SetResult(m, total, k, v);
      if r.Err? then (m, total) else (r.value, total + |v| - (if k in m then |m[k]| else 0))
    case Delete(k) => if k in m then (m - {k}, total - |m[k]|) else (m, total)
  }

  function RunFrom(m: map<Key, string>, total: int, calls: seq<Call>): (map<Key, string>, int)
    decreases |calls|
  {
    if calls == [] then (m, total)
    else
      var (m', total') := After(m, total, calls[0]);
      RunFrom(m', total', calls[1..])
  }

  /** Over every run of calls the counter is the exact number of stored bytes and both limits hold. */
  lemma {:induction false} AccountingHolds(m: map<Key, string>, total: int, calls: seq<Call>)
    requires total == Bytes(m) && WithinLimits(m)
    ensures RunFrom(m, total, calls).1 == Bytes(RunFrom(m, total, calls).0)
    ensures WithinLimits(RunFrom(m, total, calls).0)
    decreases |calls|
  {
    if calls != [] {
      var (m', total') := After(m, total, calls[0]);
      match calls[0] {
        case Set(k, v) => BytesOfUpdate(m, k, v);
        case Delete(k) => if k in m { BytesWithout(m, k); }
      }
      AccountingHolds(m', total', calls[1..]);
    }
  }

  function Lookup(m: map<Key, string>, k: Key): Option<string> {
    if k in m then Some(m[k]) else None
  }

  /** A write is accepted exactly when the value is no longer than one may be and the store with it would not be over
      its size; a longer value is named as the reason first. */
  lemma SetAnswers(m: map<Key, string>, total: int, k: Key, v: string)
    requires total == Bytes(m)
    ensures var r := SetResult(m, total, k, v);
            && (r.Ok? <==> |v| <= VALUE_MAX_BYTES && Bytes(m[k := v]) <= STORE_MAX_BYTES)
            && (r.Err? ==> (r.error == ValueTooLarge <==> |v| > VALUE_MAX_BYTES))
  {
    BytesOfUpdate(m, k, v);
  }

  /** An accepted write is read back, a deleted key is gone, and no other key is touched. */
  lemma AfterIs(m: map<Key, string>, total: int, c: Call)
    ensures var m' := After(m, total, c).0;
            && (forall j :: j != c.k ==> Lookup(m', j) == Lookup(m, j))
            && Lookup(m', c.k) ==
               if c.Delete? then None
               else if SetResult(m, total, c.k, c.v).Ok? then Some(c.v)
               else Lookup(m, c.k)
  {}

  lemma {:induction false} OtherCallsKeep(m: map<Key, string>, total: int, calls: seq<Call>, k: Key)
    requires forall i :: 0 <= i < |calls| ==> calls[i].k != k
    ensures Lookup(RunFrom(m, total, calls).0, k) == Lookup(m, k)
    decreases |calls|
  {
    hide After, Lookup;
    if calls != [] {
      var (m', total') := After(m, total, calls[0]);
      AfterIs(m, total, calls[0]);
      OtherCallsKeep(m', total', calls[1..], k);
    }
  }

  /** What is found under a key is what the last call about it left there. */
  lemma LastCallDecides(m: map<Key, string>, total: int, c: Call, later: seq<Call>)
    requires forall i :: 0 <= i < |later| ==> later[i].k != c.k
    ensures Lookup(RunFrom(m, total, [c] + later).0, c.k) ==
            if c.Delete? then None
            else if SetResult(m, total, c.k, c.v).Ok? then Some(c.v)
            else Lookup(m, c.k)
  {
    hide After, Lookup;
    var (m', total') := After(m, total, c);
    AfterIs(m, total, c);
    assert ([c] + later)[1..] == later;
    OtherCallsKeep(m', total', later, c.k);
  }

  /** A key that is absent stays absent until it is set. */
  lemma {:induction false} AbsentUntilSet(m: map<Key, string>, total: int, calls: seq<Call>, k: Key)
    requires k !in m && forall i :: 0 <= i < |calls| && calls[i].k == k ==> calls[i].Delete?
    ensures k !in RunFrom(m, total, calls).0
    decreases |calls|
  {
    if calls != [] {
      var (m', total') := After(m, total, calls[0]);
      AbsentUntilSet(m', total', calls[1..], k);
    }
  }

  // ------------------------------------------------------------------ byte order

  predicate Before(a: string, b: string) {
    if b == "" then false
    else if a == "" then true
    else a[0] < b[0] || (a[0] == b[0] && Before(a[1..], b[1..]))
  }

  lemma {:induction false} BeforeTotal(a: string, b: string)
    ensures Before(a, b) || Before(b, a) || a == b
    ensures !(Before(a, b) && Before(b, a)) && (a == b ==> !Before(a, b))
  {
    if a != "" && b != "" {
      BeforeTotal(a[1..], b[1..]);
      if a[0] == b[0] && a[1..] == b[1..] { assert a == [a[0]] + a[1..] && b == [b[0]] + b[1..]; }
    }
  }

  lemma {:induction false} BeforeTransitive(a: string, b: string, c: string)
    requires Before(a, b) && Before(b, c)
    ensures Before(a, c)
  {
    if a != "" && a[0] == b[0] == c[0] { BeforeTransitive(a[1..], b[1..], c[1..]); }
  }

  ghost predicate Ascending(ks: seq<Key>) {
    forall i, j :: 0 <= i < j < |ks| ==> Before(ks[i], ks[j])
  }

  /** Insert a key that is not there yet. */
  method Insert(ks: seq<Key>, k: Key) returns (r: seq<Key>)
    requires Ascending(ks) && k !in ks
    ensures Ascending(r) && forall j :: j in r <==> j in ks || j == k
  {
    var i := 0;
    while i < |ks| && Before(ks[i], k)
      invariant i <= |ks| && forall j :: 0 <= j < i ==> Before(ks[j], k)
    {
      i := i + 1;
    }
    forall j | i <= j < |ks| ensures Before(k, ks[j]) {
      BeforeTotal(ks[i], k);
      if i < j { BeforeTransitive(k, ks[i], ks[j]); }
    }
    r := ks[..i] + [k] + ks[i..];
  }

  /** An ascending sequence is determined by its elements. */
  lemma {:induction false} AscendingUnique(a: seq<Key>, b: seq<Key>)
    requires Ascending(a) && Ascending(b) && forall k :: k in a <==> k in b
    ensures a == b
  {
    if b != [] { assert b[0] in b; }
    if a != [] {
      assert a[0] in a && b != [];
      SameFirst(a, b);
      SameFirst(b, a);
      BeforeTotal(a[0], b[0]);
      forall k ensures k in a[1..] <==> k in b[1..] {
        NotAgain(a, k);
        NotAgain(b, k);
      }
      AscendingUnique(a[1..], b[1..]);
    }
  }

  lemma SameFirst(a: seq<Key>, b: seq<Key>)
    requires Ascending(a) && a != [] && b != [] && b[0] in a
    ensures a[0] == b[0] || Before(a[0], b[0])
  {}

  lemma NotAgain(a: seq<Key>, k: Key)
    requires Ascending(a) && a != []
    ensures k in a[1..] <==> k in a && k != a[0]
  {
    if k in a[1..] {
      var i :| 0 <= i < |a[1..]| && a[1..][i] == k;
      assert Before(a[0], a[i + 1]);
      BeforeTotal(a[0], k);
    }
    if k in a && k != a[0] {
      var i :| 0 <= i < |a| && a[i] == k;
      assert a[1..][i - 1] == k;
    }
  }

  // ------------------------------------------------------------------ the store

  class Store {
    var data: map<Key, string>
    var totalBytes: int

    ghost predicate Valid()
      reads this
    {
      totalBytes == Bytes(data) && WithinLimits(data)
    }

    constructor ()
      ensures Valid() && data == map[]
    {
      data, totalBytes := map[], 0;
    }

    /** Refused writes change nothing. */
    method Set(k: Key, value: string) returns (err: Option<SetError>)
      requires Valid()
      modifies this
      ensures Valid() && (data, totalBytes) == After(old(data), old(totalBytes), Call.Set(k, value))
      ensures var r := SetResult(old(data), old(totalBytes), k, value); err == if r.Err? then Some(r.error) else None
    {
      if |value| > VALUE_MAX_BYTES { return Some(ValueTooLarge); }
      var existing := if k in data then |data[k]| else 0;
      var delta := |value| - existing;
      if totalBytes + delta > STORE_MAX_BYTES { return Some(StoreFull); }
      BytesOfUpdate(data, k, value);
      data := data[k := value];
      totalBytes := totalBytes + delta;
      return None;
    }

    method Get(k: Key) returns (v: Option<string>)
      ensures v == if k in data then Some(data[k]) else None
    {
      if k in data { return Some(data[k]); }
      return None;
    }

    method Delete(k: Key)
      requires Valid()
      modifies this
      ensures Valid() && (data, totalBytes) == After(old(data), old(totalBytes), Call.Delete(k))
    {
      if k in data {
        BytesWithout(data, k);
        totalBytes := totalBytes - |data[k]|;
        data := data - {k};
      }
    }

    /** The stored keys with the given prefix, ascending, whatever order the map yields them in. */
    method Keys(prefix: string) returns (ks: seq<Key>)
      ensures Ascending(ks) && forall k :: k in ks <==> k in data && prefix <= k
    {
      ks := [];
      var rest := data.Keys;
      while rest != {}
        invariant rest <= data.Keys && Ascending(ks)
        invariant forall k :: k in ks <==> k in data && k !in rest && prefix <= k
      {
        var k :| k in rest;
        rest := rest - {k};
        if prefix <= k { ks := Insert(ks, k); }
      }
    }
  }
}
