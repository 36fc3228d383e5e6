/**
 * Flat JSON records. A record keeps its keys in insertion order, as a
 * Python dict does: the column order of the tables built from records
 * depends on it.
 */
module Records {
  import opened Wrappers

  datatype Fields = Fields(keys: seq<string>, values: map<string, string>)

  ghost predicate Distinct(s: seq<string>) {
    forall i, j :: 0 <= i < j < |s| ==> s[i] != s[j]
  }

  /** The keys are listed once each, in insertion order, and are exactly the mapped keys. */
  ghost predicate WellFormed(f: Fields) {
    Distinct(f.keys) && forall k :: k in f.values <==> k in f.keys
  }

  type Record = f: Fields | WellFormed(f) witness Fields([], map[])

  /** The value of a key, or None where the record lacks it (a missing cell). */
  function Lookup(r: Record, key: string): Option<string> {
    if key in r.values then Some(r.values[key]) else None
  }

  /** `record[key] = value`: an existing key keeps its position, a new key goes last. */
  function Set(r: Record, key: string, value: string): Record {
    Fields(if key in r.values then r.keys else r.keys + [key], r.values[key := value])
  }

  /** Key/value assignments applied one after the other. */
  type Stamps = seq<(string, string)>

  ghost predicate DistinctKeys(stamps: Stamps) {
    forall i, j :: 0 <= i < j < |stamps| ==> stamps[i].0 != stamps[j].0
  }

  ghost predicate IsStampKey(stamps: Stamps, key: string) {
    exists i :: 0 <= i < |stamps| && stamps[i].0 == key
  }

  /** `record[k1] = v1; record[k2] = v2; ...` in the given order. */
  function Stamp(r: Record, stamps: Stamps): Record
    decreases |stamps|
  {
    if stamps == [] then r
    else
      var last := stamps[|stamps| - 1];
      Set(Stamp(r, stamps[..|stamps| - 1]), last.0, last.1)
  }

  lemma SetEffect(r: Record, key: string, value: string)
    ensures Lookup(Set(r, key, value), key) == Some(value)
    ensures forall k :: k != key ==> Lookup(Set(r, key, value), k) == Lookup(r, k)
    ensures |r.keys| <= |Set(r, key, value).keys| && Set(r, key, value).keys[..|r.keys|] == r.keys
  {
  }

  /** Keys that are not stamped keep their value, or stay absent. */
  lemma {:induction false} StampKeepsOthers(r: Record, stamps: Stamps, k: string)
    requires !IsStampKey(stamps, k)
    ensures Lookup(Stamp(r, stamps), k) == Lookup(r, k)
    decreases |stamps|
  {
    if stamps != [] {
      var init := stamps[..|stamps| - 1];
      var last := stamps[|stamps| - 1];
      assert !IsStampKey(init, k) by {
        forall i | 0 <= i < |init| ensures init[i].0 != k {
          assert init[i] == stamps[i];
        }
      }
      assert last.0 != k by { assert stamps[|stamps| - 1].0 == last.0; }
      StampKeepsOthers(r, init, k);
      SetEffect(Stamp(r, init), last.0, last.1);
    }
  }

  /** A stamped key holds the value of its last assignment. */
  lemma {:induction false} StampLastWins(r: Record, stamps: Stamps, i: int)
    requires 0 <= i < |stamps|
    requires forall j :: i < j < |stamps| ==> stamps[j].0 != stamps[i].0
    ensures Lookup(Stamp(r, stamps), stamps[i].0) == Some(stamps[i].1)
    decreases |stamps|
  {
    var init := stamps[..|stamps| - 1];
    var last := stamps[|stamps| - 1];
    SetEffect(Stamp(r, init), last.0, last.1);
    if i < |stamps| - 1 {
      assert init[i] == stamps[i];
      StampLastWins(r, init, i);
    }
  }

  /** The record's own keys stay at the front, in their order; new keys follow. */
  lemma {:induction false} StampKeepsOrder(r: Record, stamps: Stamps)
    ensures |r.keys| <= |Stamp(r, stamps).keys| && Stamp(r, stamps).keys[..|r.keys|] == r.keys
    decreases |stamps|
  {
    if stamps != [] {
      var init := stamps[..|stamps| - 1];
      var last := stamps[|stamps| - 1];
      StampKeepsOrder(r, init);
      SetEffect(Stamp(r, init), last.0, last.1);
    }
  }

  /** With distinct keys every stamp is present in the result. */
  lemma StampCarries(r: Record, stamps: Stamps)
    requires DistinctKeys(stamps)
    ensures forall i :: 0 <= i < |stamps| ==> Lookup(Stamp(r, stamps), stamps[i].0) == Some(stamps[i].1)
  {
    forall i | 0 <= i < |stamps|
      ensures Lookup(Stamp(r, stamps), stamps[i].0) == Some(stamps[i].1)
    {
      StampLastWins(r, stamps, i);
    }
  }

  /** Every record of the sequence, stamped in the same way. */
  function StampAll(payload: seq<Record>, stamps: Stamps): seq<Record>
  {
    seq(|payload|, i requires 0 <= i < |payload| => Stamp(payload[i], stamps))
  }

  /** Some record has the key: the column exists in the table built from the records. */
  ghost predicate HasColumn(rs: seq<Record>, key: string) {
    exists i :: 0 <= i < |rs| && key in rs[i].values
  }

  /** `acc` followed by the keys of `ks` that are not yet in it, in their order. */
  function Merge(acc: seq<string>, ks: seq<string>): (r: seq<string>)
    ensures |acc| <= |r| && r[..|acc|] == acc
    ensures Distinct(acc) ==> Distinct(r)
    ensures forall k :: k in r <==> k in acc || k in ks
    decreases |ks|
  {
    if ks == [] then acc
    else Merge(if ks[0] in acc then acc else acc + [ks[0]], ks[1..])
  }

  function ColumnsFrom(acc: seq<string>, rs: seq<Record>): (r: seq<string>)
    ensures |acc| <= |r| && r[..|acc|] == acc
    ensures Distinct(acc) ==> Distinct(r)
    ensures forall k :: k in r <==> k in acc || HasColumn(rs, k)
    decreases |rs|
  {
    if rs == [] then acc
    else
      var r := ColumnsFrom(Merge(acc, rs[0].keys), rs[1..]);
      assert forall k :: HasColumn(rs, k) <==> k in rs[0].keys || HasColumn(rs[1..], k) by {
        forall k ensures HasColumn(rs, k) <==> k in rs[0].keys || HasColumn(rs[1..], k) {
          if HasColumn(rs, k) {
            var i :| 0 <= i < |rs| && k in rs[i].values;
            if i > 0 { assert k in rs[1..][i - 1].values; }
          }
          if HasColumn(rs[1..], k) {
            var i :| 0 <= i < |rs[1..]| && k in rs[1..][i].values;
            assert k in rs[i + 1].values;
          }
        }
      }
      r
  }

  /**
   * The columns of the table built from the records: every key of every
   * record once, in the order in which the keys are first seen.
   */
  function Columns(rs: seq<Record>): (r: seq<string>)
    ensures Distinct(r)
    ensures forall k :: k in r <==> HasColumn(rs, k)
  {
    ColumnsFrom([], rs)
  }

  /** Appending keys none of which is already present just concatenates. */
  lemma {:induction false} MergeFresh(acc: seq<string>, ks: seq<string>)
    requires Distinct(ks)
    requires forall k :: k in ks ==> k !in acc
    ensures Merge(acc, ks) == acc + ks
    decreases |ks|
  {
    if ks != [] {
      var tail := ks[1..];
      var acc' := acc + [ks[0]];
      assert ks == [ks[0]] + tail;
      assert acc' + tail == acc + ks;
      assert ks[0] !in acc;
      assert Merge(acc, ks) == Merge(acc', tail);
      FreshTail(acc, ks);
      MergeFresh(acc', tail);
    }
  }

  /** After the first key is appended, the remaining keys are still distinct and new. */
  lemma FreshTail(acc: seq<string>, ks: seq<string>)
    requires ks != [] && Distinct(ks)
    requires forall k :: k in ks ==> k !in acc
    ensures Distinct(ks[1..]) && forall k :: k in ks[1..] ==> k !in acc + [ks[0]]
  {
    var tail := ks[1..];
    forall i, j | 0 <= i < j < |tail| ensures tail[i] != tail[j] {
      assert tail[i] == ks[i + 1] && tail[j] == ks[j + 1];
    }
    forall k | k in tail ensures k !in acc + [ks[0]] {
      var i :| 0 <= i < |tail| && tail[i] == k;
      assert ks[i + 1] == k;
    }
  }


  /** Merging keys that are all present already changes nothing. */
  lemma {:induction false} MergeKnown(acc: seq<string>, ks: seq<string>)
    requires forall k :: k in ks ==> k in acc
    ensures Merge(acc, ks) == acc
    decreases |ks|
  {
    if ks != [] {
      MergeKnown(acc, ks[1..]);
    }
  }

  /** When every record has the same keys in the same order, those are the columns. */
  lemma {:induction false} ColumnsOfUniform(rs: seq<Record>, ks: seq<string>)
    requires |rs| > 0
    requires forall i :: 0 <= i < |rs| ==> rs[i].keys == ks
    ensures Columns(rs) == ks
  {
    MergeFresh([], rs[0].keys);
    assert [] + ks == ks;
    UniformFrom(ks, rs[1..]);
  }

  lemma {:induction false} UniformFrom(ks: seq<string>, rs: seq<Record>)
    requires forall i :: 0 <= i < |rs| ==> rs[i].keys == ks
    ensures ColumnsFrom(ks, rs) == ks
    decreases |rs|
  {
    if rs != [] {
      MergeKnown(ks, rs[0].keys);
      UniformFrom(ks, rs[1..]);
    }
  }
}
