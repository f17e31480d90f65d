/** What decoding returns for arbitrary shreds, said without the selection, the matrices or the unframing
that compute it. */
module DecodeLaws {
  import opened Bytes
  import opened ErasureCoder

  /** Shred s is the first one with its index. */
  ghost predicate First(shreds: seq<Shred>, s: Shred) {
    exists p :: 0 <= p < |shreds| && shreds[p] == s && forall q :: 0 <= q < p ==> shreds[q].index != s.index
  }

  /** The k lowest indices below the total, each with the first shred that carries it. */
  ghost predicate Chosen(shreds: seq<Shred>, total: nat, k: nat, sel: seq<Shred>) {
    && |sel| == k
    && (forall r :: 0 <= r < k ==> sel[r].index < total && First(shreds, sel[r]))
    && (forall r, t :: 0 <= r < t < k ==> sel[r].index < sel[t].index)
    && forall s, r :: s in shreds && 0 <= r < k && s.index < sel[r].index ==>
      exists t :: 0 <= t < k && sel[t].index == s.index
  }

  lemma FirstLonger(shreds: seq<Shred>, more: Shred, s: Shred)
    requires First(shreds, s)
    ensures First(shreds + [more], s)
  {
    var p :| 0 <= p < |shreds| && shreds[p] == s && forall q :: 0 <= q < p ==> shreds[q].index != s.index;
    assert (shreds + [more])[p] == s;
  }

  lemma FirstAtEnd(shreds: seq<Shred>, s: Shred)
    requires forall t :: t in shreds ==> t.index != s.index
    ensures First(shreds + [s], s)
  {
    assert (shreds + [s])[|shreds|] == s;
  }

  lemma {:induction false} ByIndexFirst(shreds: seq<Shred>, total: nat, i: nat)
    requires i in ByIndex(shreds, total)
    ensures First(shreds, ByIndex(shreds, total)[i])
    decreases |shreds|
  {
    if shreds != [] {
      var n := |shreds| - 1;
      var before, s := shreds[..n], ByIndex(shreds, total)[i];
      assert shreds == before + [shreds[n]];
      hide First;
      if i in ByIndex(before, total) {
        ByIndexFirst(before, total, i);
        FirstLonger(before, shreds[n], s);
      } else {
        FirstAtEnd(before, s);
      }
    }
  }

  /** Nothing below the last survivor is passed over. */
  lemma {:induction false} SurvivorsLowest(byIdx: map<nat, Shred>, i: nat, total: nat, k: nat, x: nat, r: nat)
    requires forall y :: y in byIdx ==> byIdx[y].index == y
    requires x in byIdx && i <= x && r < |Survivors(byIdx, i, total, k)| && x < Survivors(byIdx, i, total, k)[r].index
    ensures exists t :: 0 <= t < |Survivors(byIdx, i, total, k)| && Survivors(byIdx, i, total, k)[t].index == x
    decreases total - i
  {
    var sel := Survivors(byIdx, i, total, k);
    if i !in byIdx {
      SurvivorsLowest(byIdx, i + 1, total, k, x, r);
    } else if x == i {
      assert sel[0].index == x;
    } else {
      var rest := Survivors(byIdx, i + 1, total, k - 1);
      SurvivorsLowest(byIdx, i + 1, total, k - 1, x, r - 1);
      var t :| 0 <= t < |rest| && rest[t].index == x;
      assert sel[t + 1].index == x;
    }
  }

  lemma SurvivorsChosen(shreds: seq<Shred>, total: nat, k: nat)
    requires |Indices(shreds, total)| >= k
    ensures Chosen(shreds, total, k, Survivors(ByIndex(shreds, total), 0, total, k))
  {
    var byIdx := ByIndex(shreds, total);
    var sel := Survivors(byIdx, 0, total, k);
    SurvivorsOf(shreds, total, k);
    SurvivorsOrdered(byIdx, 0, total, k);
    forall r | 0 <= r < k ensures First(shreds, sel[r]) { ByIndexFirst(shreds, total, sel[r].index); }
    forall s, r | s in shreds && 0 <= r < k && s.index < sel[r].index
      ensures exists t :: 0 <= t < k && sel[t].index == s.index
    {
      SurvivorsLowest(byIdx, 0, total, k, s.index, r);
    }
  }

  /** The bytes begin with eight length bytes and then that many bytes of data. */
  ghost predicate Holds(buf: seq<Byte>, data: seq<Byte>) {
    |data| < U64_LIMIT && ToLe(|data|, 8) + data <= buf
  }

  ghost predicate Stripped(buf: seq<Byte>, out: Decoded) {
    match out
    case Panicked => |buf| < 8
    case Recovered(data) => Holds(buf, data)
    case Refused => |buf| >= 8 && forall data :: !Holds(buf, data)
  }

  /** A prefix that holds data determines it. */
  lemma HoldsLength(buf: seq<Byte>, data: seq<Byte>)
    requires Holds(buf, data)
    ensures |buf| >= 8 + |data| && FromLe(buf[..8]) == |data| && buf[8..8 + |data|] == data
  {
    Widths();
    FromToLe(|data|, 8);
    var pre := ToLe(|data|, 8) + data;
    assert buf[..|pre|] == pre;
    assert buf[..8] == pre[..8] == ToLe(|data|, 8);
    assert buf[8..8 + |data|] == pre[8..] == data;
  }

  lemma UnframeExactly(buf: seq<Byte>, out: Decoded)
    ensures out == Unframe(buf) <==> Stripped(buf, out)
  {
    match out {
      case Panicked =>
      case Recovered(data) =>
        if Holds(buf, data) { HoldsLength(buf, data); }
        if out == Unframe(buf) { PrefixHolds(buf); }
      case Refused =>
        if out == Unframe(buf) {
          forall data ensures !Holds(buf, data) { if Holds(buf, data) { HoldsLength(buf, data); } }
        }
        if Unframe(buf).Recovered? { PrefixHolds(buf); }
    }
  }

  lemma PrefixHolds(buf: seq<Byte>)
    requires |buf| >= 8 && FromLe(buf[..8]) <= |buf| - 8
    ensures Holds(buf, buf[8..8 + FromLe(buf[..8])])
  {
    var n := FromLe(buf[..8]);
    Widths();
    FromLeBound(buf[..8]);
    ToFromLe(buf[..8]);
    assert ToLe(n, 8) + buf[8..8 + n] == buf[..8 + n];
  }

  predicate OneSize(sel: seq<Shred>, size: nat) {
    size > 0 && forall r :: 0 <= r < |sel| ==> |sel[r].payload| == size
  }

  /** Shreds of one positive size are read through the polynomials that run through them. */
  ghost predicate ReadFrom(sel: seq<Shred>, k: nat, out: Decoded)
    requires |sel| >= 1
  {
    var size := |sel[0].payload|;
    if !OneSize(sel, size) then out == Refused
    else exists buf, polys :: Explains(sel, buf, polys, k, size) && Stripped(buf, out)
  }

  /** Decoding any shreds at all: refused with fewer than k distinct indices in range; otherwise the first
  shreds of the k lowest indices are taken, refused if their sizes differ or are 0, and else the values at
  0..k-1 of the polynomials through them are read as length, data and padding. */
  lemma DecodeExactly(shreds: seq<Shred>, k: nat, m: nat, out: Decoded)
    requires 1 <= k && k + m <= 256 && DecodesTo(shreds, k, m, out)
    ensures |Indices(shreds, k + m)| < k ==> out == Refused
    ensures |Indices(shreds, k + m)| >= k ==>
      exists sel :: Chosen(shreds, k + m, k, sel) && ReadFrom(sel, k, out)
  {
    hide ByIndex;
    hide Survivors;
    hide Explains;
    SurvivorsOf(shreds, k + m, k);
    var sel := Survivors(ByIndex(shreds, k + m), 0, k + m, k);
    if |Indices(shreds, k + m)| >= k {
      SurvivorsChosen(shreds, k + m, k);
      hide Chosen;
      hide Indices;
      hide Stripped;
      assert Uniform(sel) <==> OneSize(sel, |sel[0].payload|);
      hide Uniform;
      hide OneSize;
      if Uniform(sel) {
        var buf, polys :| Explains(sel, buf, polys, k, |sel[0].payload|) && out == Unframe(buf);
        UnframeExactly(buf, out);
      }
      assert ReadFrom(sel, k, out);
    }
  }
}
