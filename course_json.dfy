/**
 * A course item of the listing as the crawler holds it after `JSON.parse`:
 * its fields in the order the catalog sent them, their key-sorted canonical
 * form (what `getCourseJsonHash` hashes), and the `/Date(n)/` timestamp the
 * catalog writes into `Alkuaika`.
 */
module CourseJson {
  import opened Wrappers
  import opened Text

  /** The JSON values that occur in a listing item. */
  datatype Json = JNull | JBool(b: bool) | JNum(n: int) | JStr(s: string)

  type Field = (string, Json)

  /** A JSON object: its fields in property order. */
  type Item = seq<Field>

  /** A JavaScript object never holds the same property twice. */
  predicate DistinctKeys(item: Item) {
    forall i, j :: 0 <= i < j < |item| ==> item[i].0 != item[j].0
  }

  predicate HasKey(item: Item, key: string) {
    exists i :: 0 <= i < |item| && item[i].0 == key
  }

  /** `item[key]`, or None for `undefined`: the first field with that key. */
  function Get(item: Item, key: string): Option<Json> {
    if item == [] then None
    else if item[0].0 == key then Some(item[0].1)
    else Get(item[1..], key)
  }

  /** A property is defined exactly when the object has the key, and it reads one of its fields. */
  lemma {:induction false} GetHasKey(item: Item, key: string)
    ensures Get(item, key).Some? <==> HasKey(item, key)
    ensures Get(item, key).Some? ==> (key, Get(item, key).value) in item
  {
    if item != [] && item[0].0 != key {
      GetHasKey(item[1..], key);
      if HasKey(item, key) {
        var i :| 0 <= i < |item| && item[i].0 == key;
        assert item[1..][i - 1].0 == key;
      }
      if HasKey(item[1..], key) {
        var i :| 0 <= i < |item[1..]| && item[1..][i].0 == key;
        assert item[i + 1].0 == key;
      }
    }
  }

  /** `item[key] = v`: an existing property keeps its place, a new one goes last. */
  function Put(item: Item, key: string, v: Json): Item {
    if item == [] then [(key, v)]
    else if item[0].0 == key then [(key, v)] + item[1..]
    else [item[0]] + Put(item[1..], key, v)
  }

  lemma {:induction false} GetTail(item: Item, key: string)
    requires item != [] && item[0].0 != key
    ensures Get(item, key) == Get(item[1..], key)
  {
  }

  /** After `item[key] = v` the property reads `v` and every other property reads as before. */
  lemma {:induction false} PutGet(item: Item, key: string, v: Json)
    ensures Get(Put(item, key, v), key) == Some(v)
    ensures forall k :: k != key ==> Get(Put(item, key, v), k) == Get(item, k)
  {
    var r := Put(item, key, v);
    if item != [] && item[0].0 == key {
      forall k | k != key ensures Get(r, k) == Get(item, k) {
        GetTail(r, k);
        GetTail(item, k);
        assert r[1..] == item[1..];
      }
    } else if item != [] {
      PutGet(item[1..], key, v);
      assert r[1..] == Put(item[1..], key, v);
      GetTail(r, key);
      forall k | k != key && k != item[0].0 ensures Get(r, k) == Get(item, k) {
        GetTail(r, k);
        GetTail(item, k);
      }
    }
  }

  /** Assigning an existing property keeps every key in its position. */
  lemma {:induction false} PutKeepsKeys(item: Item, key: string, v: Json)
    requires HasKey(item, key)
    ensures |Put(item, key, v)| == |item|
    ensures forall i :: 0 <= i < |item| ==> Put(item, key, v)[i].0 == item[i].0
  {
    if item[0].0 != key {
      var i :| 0 <= i < |item| && item[i].0 == key;
      assert item[1..][i - 1].0 == key;
      PutKeepsKeys(item[1..], key, v);
    }
  }

  /** Assigning an existing property keeps an object's keys distinct. */
  lemma PutDistinct(item: Item, key: string, v: Json)
    requires DistinctKeys(item) && HasKey(item, key)
    ensures DistinctKeys(Put(item, key, v))
  {
    PutKeepsKeys(item, key, v);
  }

  /** The properties of an item as a key to value map. */
  function ValueMap(item: Item): map<string, Json> {
    if item == [] then map[] else ValueMap(item[1..])[item[0].0 := item[0].1]
  }

  lemma {:induction false} ValueMapFields(item: Item, f: Field)
    requires DistinctKeys(item)
    ensures f in item <==> f.0 in ValueMap(item) && ValueMap(item)[f.0] == f.1
  {
    if item != [] {
      assert DistinctKeys(item[1..]);
      ValueMapFields(item[1..], f);
      assert forall g :: g in item[1..] ==> g.0 != item[0].0 by {
        forall g | g in item[1..] ensures g.0 != item[0].0 {
          var j :| 0 <= j < |item[1..]| && item[1..][j] == g;
          assert item[j + 1] == g;
        }
      }
    }
  }

  // ---------------------------------------------------------------------
  // Canonical form: the properties re-inserted in sorted key order
  // ---------------------------------------------------------------------

  predicate KeysAscending(s: Item) {
    forall i, j :: 0 <= i < j < |s| ==> StrLess(s[i].0, s[j].0)
  }

  function InsertByKey(f: Field, s: Item): Item {
    if s == [] then [f]
    else if StrLess(f.0, s[0].0) then [f] + s
    else [s[0]] + InsertByKey(f, s[1..])
  }

  /** Inserting adds exactly the one field. */
  lemma {:induction false} InsertByKeyMultiset(f: Field, s: Item)
    ensures multiset(InsertByKey(f, s)) == multiset(s) + multiset{f}
  {
    if s != [] && !StrLess(f.0, s[0].0) {
      assert s == [s[0]] + s[1..];
      InsertByKeyMultiset(f, s[1..]);
    }
  }

  /** The object `Object.keys(item).sort().reduce(...)` builds from `item`. */
  function Canonical(item: Item): Item {
    if item == [] then [] else InsertByKey(item[0], Canonical(item[1..]))
  }

  /** `getCourseJsonHash`: the digest (sha256 of `JSON.stringify`) of the canonical form. */
  function CourseJsonHash(item: Item, digest: Item -> string): string {
    digest(Canonical(item))
  }

  lemma {:induction false} InsertByKeyAscending(f: Field, s: Item)
    requires KeysAscending(s)
    requires forall g :: g in s ==> g.0 != f.0
    ensures KeysAscending(InsertByKey(f, s))
  {
    if s != [] {
      if StrLess(f.0, s[0].0) {
        var r := [f] + s;
        forall i, j | 0 <= i < j < |r| ensures StrLess(r[i].0, r[j].0) {
          if i == 0 && j > 1 {
            StrLessTransitive(f.0, s[0].0, s[j - 1].0);
          }
        }
      } else {
        StrLessTotal(f.0, s[0].0);
        InsertByKeyAscending(f, s[1..]);
        InsertByKeyMultiset(f, s[1..]);
        var rest := InsertByKey(f, s[1..]);
        var r := [s[0]] + rest;
        forall j | 0 < j < |r| ensures StrLess(s[0].0, r[j].0) {
          assert rest[j - 1] in multiset(rest);
          if rest[j - 1] != f {
            assert rest[j - 1] in s[1..];
            var k :| 0 <= k < |s[1..]| && s[1..][k] == rest[j - 1];
            assert s[k + 1] == rest[j - 1];
          }
        }
      }
    }
  }

  /** The canonical keys are exactly the item's keys, each once, strictly ascending. */
  lemma {:induction false} CanonicalForm(item: Item)
    requires DistinctKeys(item)
    ensures multiset(Canonical(item)) == multiset(item)
    ensures KeysAscending(Canonical(item))
  {
    if item != [] {
      assert item == [item[0]] + item[1..];
      assert DistinctKeys(item[1..]);
      CanonicalForm(item[1..]);
      InsertByKeyMultiset(item[0], Canonical(item[1..]));
      forall g | g in Canonical(item[1..]) ensures g.0 != item[0].0 {
        assert g in multiset(item[1..]);
        var k :| 0 <= k < |item[1..]| && item[1..][k] == g;
        assert item[k + 1] == g;
      }
      InsertByKeyAscending(item[0], Canonical(item[1..]));
    }
  }

  /** Two key-ascending field lists with the same fields are the same list. */
  lemma {:induction false} AscendingUnique(a: Item, b: Item)
    requires KeysAscending(a) && KeysAscending(b)
    requires forall f :: f in a <==> f in b
    ensures a == b
    decreases |a|
  {
    assert a != [] ==> a[0] in b;
    assert b != [] ==> b[0] in a;
    if a != [] && b != [] {
      assert a[0] in b;
      assert b[0] in a;
      var i :| 0 <= i < |b| && b[i] == a[0];
      var j :| 0 <= j < |a| && a[j] == b[0];
      StrLessIrreflexive(a[0].0);
      StrLessIrreflexive(b[0].0);
      if i > 0 && j > 0 {
        assert StrLess(a[0].0, a[j].0);
        StrLessAsymmetric(a[0].0, b[0].0);
      }
      assert a[0] == b[0];
      forall f ensures f in a[1..] <==> f in b[1..] {
        if f in a[1..] {
          var k :| 0 <= k < |a[1..]| && a[1..][k] == f;
          assert a[k + 1] == f;
          StrLessIrreflexive(a[0].0);
          assert f != a[0];
          assert f in b;
          var m :| 0 <= m < |b| && b[m] == f;
          assert m != 0;
          assert b[1..][m - 1] == f;
        }
        if f in b[1..] {
          var k :| 0 <= k < |b[1..]| && b[1..][k] == f;
          assert b[k + 1] == f;
          StrLessIrreflexive(b[0].0);
          assert f != b[0];
          assert f in a;
          var m :| 0 <= m < |a| && a[m] == f;
          assert m != 0;
          assert a[1..][m - 1] == f;
        }
      }
      AscendingUnique(a[1..], b[1..]);
      assert a == [a[0]] + a[1..] && b == [b[0]] + b[1..];
    }
  }

  /**
   * Canonicalisation ignores property order: two items with the same key to
   * value map have the same canonical form, hence the same hash.
   */
  lemma CanonicalIgnoresOrder(a: Item, b: Item, digest: Item -> string)
    requires DistinctKeys(a) && DistinctKeys(b)
    requires ValueMap(a) == ValueMap(b)
    ensures Canonical(a) == Canonical(b)
    ensures CourseJsonHash(a, digest) == CourseJsonHash(b, digest)
  {
    CanonicalForm(a);
    CanonicalForm(b);
    forall f ensures f in Canonical(a) <==> f in Canonical(b) {
      ValueMapFields(a, f);
      ValueMapFields(b, f);
      assert f in Canonical(a) <==> f in multiset(a);
      assert f in Canonical(b) <==> f in multiset(b);
    }
    AscendingUnique(Canonical(a), Canonical(b));
  }

  // ---------------------------------------------------------------------
  // The `/Date(n)/` timestamp
  // ---------------------------------------------------------------------

  /** The end of the run of digits that starts at `j`. */
  function DigitRunEnd(s: string, j: nat): (k: nat)
    requires j <= |s|
    ensures j <= k <= |s|
    decreases |s| - j
  {
    if j < |s| && IsDigit(s[j]) then DigitRunEnd(s, j + 1) else j
  }

  /** The run is all digits and is not followed by one. */
  lemma {:induction false} DigitRunEndSpec(s: string, j: nat)
    requires j <= |s|
    ensures forall t :: j <= t < DigitRunEnd(s, j) ==> IsDigit(s[t])
    ensures DigitRunEnd(s, j) < |s| ==> !IsDigit(s[DigitRunEnd(s, j)])
    decreases |s| - j
  {
    if j < |s| && IsDigit(s[j]) {
      DigitRunEndSpec(s, j + 1);
    }
  }

  /** The text `s[i..m+2]` is `/Date(`, one or more digits up to `m`, then `)/`. */
  predicate DateTokenAt(s: string, i: nat, m: nat) {
    i + 6 < m && m + 2 <= |s|
    && s[i..i + 6] == "/Date(" && AllDigits(s[i + 6..m]) && s[m..m + 2] == ")/"
  }

  /**
   * Whether the pattern `/\/Date\(([0-9]+)\)\//` matches at position `i`,
   * and the milliseconds its digits denote.
   */
  function DateMatchAt(s: string, i: nat): Option<nat> {
    if i + 6 <= |s| && s[i..i + 6] == "/Date(" then
      var k := DigitRunEnd(s, i + 6);
      if i + 6 < k && k + 2 <= |s| && s[k..k + 2] == ")/" && AllDigits(s[i + 6..k]) then
        Some(DigitsValue(s[i + 6..k]))
      else None
    else None
  }

  /** The pattern matches at `i` exactly when a token starts there, and yields its digits' value. */
  lemma DateMatchAtSpec(s: string, i: nat)
    ensures DateMatchAt(s, i).Some? <==> exists m: nat :: DateTokenAt(s, i, m)
    ensures forall m: nat :: DateTokenAt(s, i, m) ==> DateMatchAt(s, i) == Some(DigitsValue(s[i + 6..m]))
  {
    if i + 6 <= |s| && s[i..i + 6] == "/Date(" {
      var k := DigitRunEnd(s, i + 6);
      DigitRunEndSpec(s, i + 6);
      var run := s[i + 6..k];
      assert forall t :: 0 <= t < |run| ==> run[t] == s[i + 6 + t];
      forall m: nat | DateTokenAt(s, i, m) ensures m == k {
        assert !IsDigit(s[m]) by { assert s[m..m + 2][0] == s[m]; }
        forall t | i + 6 <= t < m ensures IsDigit(s[t]) { assert s[i + 6..m][t - (i + 6)] == s[t]; }
      }
      if i + 6 < k && k + 2 <= |s| && s[k..k + 2] == ")/" {
        assert DateTokenAt(s, i, k);
      }
    }
  }

  /** The leftmost match at or after `from`, as `String.prototype.match` finds it. */
  function FirstDateFrom(s: string, from: nat): Option<nat>
    decreases |s| - from
  {
    if from >= |s| then None
    else match DateMatchAt(s, from)
      case Some(ms) => Some(ms)
      case None => FirstDateFrom(s, from + 1)
  }

  /** No match at or after `from` yields nothing; otherwise the result is the leftmost match. */
  lemma {:induction false} FirstDateFromSpec(s: string, from: nat)
    ensures FirstDateFrom(s, from).None? ==> forall p: nat :: from <= p ==> DateMatchAt(s, p).None?
    ensures FirstDateFrom(s, from).Some? ==>
              exists p: nat :: from <= p < |s| && DateMatchAt(s, p) == FirstDateFrom(s, from)
                && (forall q: nat :: from <= q < p ==> DateMatchAt(s, q).None?)
    decreases |s| - from
  {
    if from >= |s| {
      forall p: nat | from <= p ensures DateMatchAt(s, p).None? {
        NoDateMatchPastEnd(s, p);
      }
    } else if DateMatchAt(s, from).Some? {
      assert FirstDateFrom(s, from) == DateMatchAt(s, from);
    } else {
      FirstDateFromSpec(s, from + 1);
      if FirstDateFrom(s, from).Some? {
        var p: nat :| from + 1 <= p < |s| && DateMatchAt(s, p) == FirstDateFrom(s, from)
                      && (forall q: nat :: from + 1 <= q < p ==> DateMatchAt(s, q).None?);
        assert forall q: nat :: from <= q < p ==> DateMatchAt(s, q).None?;
      }
    }
  }

  lemma NoDateMatchPastEnd(s: string, p: nat)
    requires p >= |s|
    ensures DateMatchAt(s, p).None?
  {
  }

  function FirstDate(s: string): Option<nat> {
    FirstDateFrom(s, 0)
  }

  /** The catalog's encoding of `n` milliseconds is read back as `n`. */
  lemma DateOfEncoded(n: nat)
    ensures FirstDate("/Date(" + NatText(n) + ")/") == Some(n)
  {
    var s := "/Date(" + NatText(n) + ")/";
    var m := 6 + |NatText(n)|;
    assert s[6..m] == NatText(n);
    assert s[0..6] == "/Date(" && s[m..m + 2] == ")/";
    assert DateTokenAt(s, 0, m);
    DateMatchAtSpec(s, 0);
    DigitsValueOfNatText(n);
  }
}
