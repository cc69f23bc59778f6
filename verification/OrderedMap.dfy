/** The source's `BTreeMap<String, V>`: strictly ascending keys beside the values they carry.
    The key order is the byte order of UTF-8 text, which is the order of the code points. */
module OrderedMap {
  import opened Wrappers

  predicate Less(a: string, b: string) {
    b != [] && (a == [] || a[0] < b[0] || (a[0] == b[0] && Less(a[1..], b[1..])))
  }

  ghost predicate Ascending(keys: seq<string>) {
    forall i, j :: 0 <= i < j < |keys| ==> Less(keys[i], keys[j])
  }

  datatype Entries<V> = Entries(keys: seq<string>, vals: seq<V>)

  type OrdMap<V> = m: Entries<V> | |m.keys| == |m.vals| && Ascending(m.keys) witness Entries([], [])

  lemma LessIrreflexive(a: string)
    ensures !Less(a, a)
  {
  }

  lemma {:induction false} LessTransitive(a: string, b: string, c: string)
    requires Less(a, b) && Less(b, c)
    ensures Less(a, c)
  {
    if a != [] && a[0] == b[0] && b[0] == c[0] {
      LessTransitive(a[1..], b[1..], c[1..]);
    }
  }

  lemma LessAsymmetric(a: string, b: string)
    requires Less(a, b)
    ensures a != b && !Less(b, a)
  {
    LessIrreflexive(a);
    if Less(b, a) { LessTransitive(a, b, a); }
  }

  lemma {:induction false} LessTotal(a: string, b: string)
    ensures Less(a, b) || a == b || Less(b, a)
  {
    if a != [] && b != [] && a[0] == b[0] {
      LessTotal(a[1..], b[1..]);
      assert a == [a[0]] + a[1..] && b == [b[0]] + b[1..];
    }
  }

  /** The index of the first key that is not before `k`. */
  function LowerBound(keys: seq<string>, k: string): (i: nat)
    ensures i <= |keys|
    ensures forall j :: 0 <= j < i ==> Less(keys[j], k)
    ensures i < |keys| ==> !Less(keys[i], k)
  {
    if keys == [] || !Less(keys[0], k) then 0 else 1 + LowerBound(keys[1..], k)
  }

  predicate Has<V>(m: OrdMap<V>, k: string) {
    var i := LowerBound(m.keys, k);
    i < |m.keys| && m.keys[i] == k
  }

  function Get<V>(m: OrdMap<V>, k: string): Option<V> {
    if Has(m, k) then Some(m.vals[LowerBound(m.keys, k)]) else None
  }

  /** `BTreeMap::insert`: replaces the value of a key that is present, adds the key in order otherwise. */
  function Insert<V>(m: OrdMap<V>, k: string, v: V): (r: OrdMap<V>)
    ensures if Has(m, k) then r.keys == m.keys && r.vals == m.vals[LowerBound(m.keys, k) := v]
            else var i := LowerBound(m.keys, k);
                 r.keys == m.keys[..i] + [k] + m.keys[i..] && r.vals == m.vals[..i] + [v] + m.vals[i..]
  {
    var i := LowerBound(m.keys, k);
    if Has(m, k) then Entries(m.keys, m.vals[i := v])
    else
      InsertAscending(m.keys, k);
      Entries(m.keys[..i] + [k] + m.keys[i..], m.vals[..i] + [v] + m.vals[i..])
  }

  lemma InsertAscending(keys: seq<string>, k: string)
    requires Ascending(keys)
    requires var i := LowerBound(keys, k); !(i < |keys| && keys[i] == k)
    ensures var i := LowerBound(keys, k); Ascending(keys[..i] + [k] + keys[i..])
  {
    var i := LowerBound(keys, k);
    forall j | i <= j < |keys| ensures Less(k, keys[j]) {
      LessTotal(keys[i], k);
      if i < j { LessTransitive(k, keys[i], keys[j]); }
    }
  }

  /** A key is found by the ordered search exactly when it is one of the keys. */
  lemma HasIsMembership<V>(m: OrdMap<V>, k: string)
    ensures Has(m, k) <==> k in m.keys
  {
    LessIrreflexive(k);
    var i := LowerBound(m.keys, k);
    assert forall j :: 0 <= j < i ==> m.keys[j] != k;
    if i < |m.keys| {
      LessTotal(m.keys[i], k);
      assert forall j :: i < j < |m.keys| ==> Less(m.keys[i], m.keys[j]);
    }
  }

  lemma FoundAt<V>(m: OrdMap<V>, k: string, i: nat)
    requires i < |m.keys| && m.keys[i] == k
    ensures Has(m, k) && LowerBound(m.keys, k) == i && Get(m, k) == Some(m.vals[i])
  {
    HasIsMembership(m, k);
    LessIrreflexive(k);
  }

  lemma KeysAfterInsert<V>(m: OrdMap<V>, k: string, v: V)
    ensures forall q :: q in Insert(m, k, v).keys <==> q == k || q in m.keys
  {
    var i := LowerBound(m.keys, k);
    assert m.keys == m.keys[..i] + m.keys[i..];
  }

  /** Looking up after an insertion: the new value at the new key, the old answer at every other key. */
  lemma GetAfterInsert<V>(m: OrdMap<V>, k: string, v: V, q: string)
    ensures Get(Insert(m, k, v), q) == if q == k then Some(v) else Get(m, q)
  {
    var r := Insert(m, k, v);
    if q == k {
      FoundAt(r, k, LowerBound(m.keys, k));
    } else if Has(m, q) {
      OtherKeyKept(m, k, v, q);
    } else {
      HasIsMembership(m, q);
      HasIsMembership(r, q);
      KeysAfterInsert(m, k, v);
    }
  }

  lemma OtherKeyKept<V>(m: OrdMap<V>, k: string, v: V, q: string)
    requires Has(m, q) && q != k
    ensures Get(Insert(m, k, v), q) == Get(m, q)
  {
    var r := Insert(m, k, v);
    var i := LowerBound(m.keys, k);
    var j := LowerBound(m.keys, q);
    if Has(m, k) {
      FoundAt(r, q, j);
    } else if j < i {
      FoundAt(r, q, j);
    } else {
      assert r.keys[j + 1] == m.keys[j] && r.vals[j + 1] == m.vals[j];
      FoundAt(r, q, j + 1);
    }
  }

  /** Two ordered maps that answer every lookup alike are the same map. */
  lemma Extensional<V>(a: OrdMap<V>, b: OrdMap<V>)
    requires forall k :: Get(a, k) == Get(b, k)
    ensures a == b
  {
    forall k ensures k in a.keys <==> k in b.keys {
      HasIsMembership(a, k);
      HasIsMembership(b, k);
      assert Get(a, k) == Get(b, k);
    }
    AscendingUnique(a.keys, b.keys);
    forall i | 0 <= i < |a.keys| ensures a.vals[i] == b.vals[i] {
      FoundAt(a, a.keys[i], i);
      FoundAt(b, a.keys[i], i);
      assert Get(a, a.keys[i]) == Get(b, a.keys[i]);
    }
  }

  lemma HeadNotInTail(p: seq<string>)
    requires Ascending(p) && p != []
    ensures forall k :: k in p[1..] <==> k in p && k != p[0]
  {
    LessIrreflexive(p[0]);
    assert forall i :: 1 <= i < |p| ==> Less(p[0], p[i]);
    assert p == [p[0]] + p[1..];
  }

  /** Ascending keys are determined by the set of keys. */
  lemma {:induction false} AscendingUnique(p: seq<string>, q: seq<string>)
    requires Ascending(p) && Ascending(q)
    requires forall k :: k in p <==> k in q
    ensures p == q
  {
    assert p != [] ==> p[0] in p;
    assert q != [] ==> q[0] in q;
    if p != [] {
      SmallestFirst(p, q);
      SmallestFirst(q, p);
      if Less(p[0], q[0]) { LessTransitive(p[0], q[0], p[0]); LessIrreflexive(p[0]); }
      HeadNotInTail(p);
      HeadNotInTail(q);
      AscendingUnique(p[1..], q[1..]);
      assert p == [p[0]] + p[1..] && q == [q[0]] + q[1..];
    }
  }

  lemma SmallestFirst(p: seq<string>, q: seq<string>)
    requires Ascending(p) && p != [] && q != [] && q[0] in p
    ensures p[0] == q[0] || Less(p[0], q[0])
  {
  }
}
