/**
 * The profile document (src/profile/RetroTinkProfile.ts): a class owning the whole file
 * image. Reads slice settings out of the image; writes splice them back range by range
 * into a copy and install the copy as a new buffer; only the CRC write changes the
 * buffer in place.
 */
module RetroTinkProfile {
  import opened DataTypes
  import opened Exceptions
  import opened Bytes
  import opened RetroTinkSetting
  import opened Schema
  import JsText

  // ---------------------------------------------------------------------------
  // Slicing and splicing settings on an image.
  // ---------------------------------------------------------------------------

  /** Every range ends inside an image of `size` bytes. */
  predicate RangesWithin(rs: seq<ByteRange>, size: nat) {
    rs == [] || (rs[0].address + rs[0].length <= size && RangesWithin(rs[1..], size))
  }

  /** `r` shares no byte with any of `rs`. */
  predicate ApartFromAll(r: ByteRange, rs: seq<ByteRange>) {
    rs == [] || (Disjoint(r, rs[0]) && ApartFromAll(r, rs[1..]))
  }

  /** No two of the ranges share a byte. */
  predicate PairwiseDisjoint(rs: seq<ByteRange>) {
    rs == [] || (ApartFromAll(rs[0], rs[1..]) && PairwiseDisjoint(rs[1..]))
  }

  predicate InRange(r: ByteRange, i: int) {
    r.address <= i < r.address + r.length
  }

  /** Index `i` lies in one of the ranges. */
  predicate Covered(rs: seq<ByteRange>, i: int) {
    rs != [] && (InRange(rs[0], i) || Covered(rs[1..], i))
  }

  /** Coverage means lying in some listed range. */
  lemma {:induction false} CoveredIff(rs: seq<ByteRange>, i: int)
    ensures Covered(rs, i) <==> exists k :: 0 <= k < |rs| && InRange(rs[k], i)
  {
    if rs != [] {
      CoveredIff(rs[1..], i);
      if exists k :: 0 <= k < |rs| && InRange(rs[k], i) {
        var k :| 0 <= k < |rs| && InRange(rs[k], i);
        if k > 0 {
          assert rs[1..][k - 1] == rs[k];
        }
      }
      if Covered(rs[1..], i) {
        var k :| 0 <= k < |rs[1..]| && InRange(rs[1..][k], i);
        assert rs[k + 1] == rs[1..][k];
      }
    }
  }

  /** The slices `bytes.slice(address, address + length)` of the ranges, concatenated in order. */
  function SliceRanges(rs: seq<ByteRange>, image: seq<Byte>): (r: seq<Byte>)
    ensures RangesWithin(rs, |image|) ==> |r| == SumLengths(rs)
  {
    if rs == [] then []
    else Slice(image, rs[0].address, rs[0].address + rs[0].length) + SliceRanges(rs[1..], image)
  }

  /** The static `sliceBytes(setting, bytes)`. */
  function SliceBytes(s: Setting, image: seq<Byte>): (r: seq<Byte>)
    ensures RangesWithin(s.byteRanges, |image|) ==> |r| == Length(s)
    ensures |s.byteRanges| == 1 ==>
      r == Slice(image, s.byteRanges[0].address, s.byteRanges[0].address + s.byteRanges[0].length)
  {
    assert |s.byteRanges| == 1 ==> s.byteRanges[1..] == [];
    SliceRanges(s.byteRanges, image)
  }

  /**
   * The splice loop of `_setValueWithInstance` and `setValues`: each range in turn is
   * replaced by the next `length` bytes of the value, read from a running offset.
   */
  function WriteRanges(image: seq<Byte>, rs: seq<ByteRange>, value: seq<Byte>, offset: nat): seq<Byte>
    decreases |rs|, 1
  {
    if rs == [] then image else WriteFirst(image, rs, value, offset)
  }

  /** One iteration of the splice loop, then the iterations for the remaining ranges. */
  function WriteFirst(image: seq<Byte>, rs: seq<ByteRange>, value: seq<Byte>, offset: nat): seq<Byte>
    requires rs != []
    decreases |rs|, 0
  {
    var r := rs[0];
    WriteRanges(Splice(image, r.address, r.length, Slice(value, offset, offset + r.length)),
                rs[1..], value, offset + r.length)
  }

  /** The splice loop over a setting's ranges, from offset 0 of its value. */
  function WriteSetting(image: seq<Byte>, s: Setting, value: seq<Byte>): (r: seq<Byte>)
    ensures RangesWithin(s.byteRanges, |image|) && Length(s) <= |value| ==> |r| == |image|
  {
    FitLength(image, s, value);
    WriteRanges(image, s.byteRanges, value, 0)
  }

  lemma FitLength(image: seq<Byte>, s: Setting, value: seq<Byte>)
    ensures RangesWithin(s.byteRanges, |image|) && Length(s) <= |value| ==>
      |WriteRanges(image, s.byteRanges, value, 0)| == |image|
  {
    if RangesWithin(s.byteRanges, |image|) && Length(s) <= |value| {
      WriteRangesLength(image, s.byteRanges, value, 0);
    }
  }

  /** The image one iteration of the splice loop leaves, and what stays to be written. */
  lemma StepFacts(image: seq<Byte>, rs: seq<ByteRange>, value: seq<Byte>, offset: nat) returns (next: seq<Byte>)
    requires rs != [] && RangesWithin(rs, |image|)
    requires offset + SumLengths(rs) <= |value|
    ensures next == Splice(image, rs[0].address, rs[0].length, value[offset..offset + rs[0].length])
    ensures |next| == |image|
    ensures RangesWithin(rs[1..], |next|)
    ensures offset + rs[0].length + SumLengths(rs[1..]) <= |value|
  {
    assert SumLengths(rs) == rs[0].length + SumLengths(rs[1..]);
    next := Splice(image, rs[0].address, rs[0].length, value[offset..offset + rs[0].length]);
  }

  /** One iteration of the splice loop: the image it leaves and what stays to be written. */
  lemma WriteStepShape(image: seq<Byte>, rs: seq<ByteRange>, value: seq<Byte>, offset: nat) returns (next: seq<Byte>)
    requires rs != [] && RangesWithin(rs, |image|)
    requires offset + SumLengths(rs) <= |value|
    ensures next == Splice(image, rs[0].address, rs[0].length, value[offset..offset + rs[0].length])
    ensures WriteRanges(image, rs, value, offset) == WriteRanges(next, rs[1..], value, offset + rs[0].length)
    ensures |next| == |image|
    ensures RangesWithin(rs[1..], |next|)
    ensures offset + rs[0].length + SumLengths(rs[1..]) <= |value|
  {
    next := StepFacts(image, rs, value, offset);
    WriteUnfold(image, rs, value, offset);
  }

  lemma WriteUnfold(image: seq<Byte>, rs: seq<ByteRange>, value: seq<Byte>, offset: nat)
    requires rs != [] && offset + rs[0].length <= |value|
    ensures WriteRanges(image, rs, value, offset)
         == WriteRanges(Splice(image, rs[0].address, rs[0].length, value[offset..offset + rs[0].length]),
                        rs[1..], value, offset + rs[0].length)
  {
    assert Slice(value, offset, offset + rs[0].length) == value[offset..offset + rs[0].length];
  }

  /** The splice loop at its `k`-th range: one splice, then the ranges after it. */
  lemma WriteAt(image: seq<Byte>, rs: seq<ByteRange>, k: nat, value: seq<Byte>, offset: nat)
    requires k < |rs|
    ensures WriteRanges(image, rs[k..], value, offset)
         == WriteRanges(Splice(image, rs[k].address, rs[k].length, Slice(value, offset, offset + rs[k].length)),
                        rs[k + 1..], value, offset + rs[k].length)
  {
    assert rs[k..][1..] == rs[k + 1..];
  }

  /** The same step, with the spliced image and the new offset given. */
  lemma WriteAtNext(image: seq<Byte>, rs: seq<ByteRange>, k: nat, value: seq<Byte>, offset: nat,
                    next: seq<Byte>, nextOffset: nat)
    requires k < |rs|
    requires next == Splice(image, rs[k].address, rs[k].length, Slice(value, offset, offset + rs[k].length))
    requires nextOffset == offset + rs[k].length
    ensures WriteRanges(next, rs[k + 1..], value, nextOffset) == WriteRanges(image, rs[k..], value, offset)
  {
    WriteAt(image, rs, k, value, offset);
  }

  /** The part of the value that a list of ranges takes: the first range's part, then the others'. */
  lemma ValueSplit(value: seq<Byte>, offset: nat, rs: seq<ByteRange>)
    requires rs != [] && offset + SumLengths(rs) <= |value|
    ensures value[offset..offset + SumLengths(rs)]
         == value[offset..offset + rs[0].length]
            + value[offset + rs[0].length..offset + rs[0].length + SumLengths(rs[1..])]
  {
    var n := rs[0].length + SumLengths(rs[1..]);
    assert SumLengths(rs) == n;
    assert value[offset..offset + n] == value[offset..offset + rs[0].length] + value[offset + rs[0].length..offset + n];
  }

  /** The slice of a list of ranges: the first range's bytes, then the others'. */
  lemma SliceHead(rs: seq<ByteRange>, w: seq<Byte>)
    requires rs != [] && rs[0].address + rs[0].length <= |w|
    ensures SliceRanges(rs, w) == w[rs[0].address..rs[0].address + rs[0].length] + SliceRanges(rs[1..], w)
  {
  }

  lemma {:induction false} WriteRangesLength(image: seq<Byte>, rs: seq<ByteRange>, value: seq<Byte>, offset: nat)
    requires RangesWithin(rs, |image|)
    requires offset + SumLengths(rs) <= |value|
    decreases |rs|
    ensures |WriteRanges(image, rs, value, offset)| == |image|
  {
    if rs != [] {
      var next := WriteStepShape(image, rs, value, offset);
      WriteRangesLength(next, rs[1..], value, offset + rs[0].length);
    }
  }

  /** The first splice of the loop leaves every byte outside the first range as it was. */
  lemma StepKeeps(image: seq<Byte>, rs: seq<ByteRange>, value: seq<Byte>, offset: nat, next: seq<Byte>)
    requires rs != [] && rs[0].address + rs[0].length <= |image| && offset + rs[0].length <= |value|
    requires next == Splice(image, rs[0].address, rs[0].length, value[offset..offset + rs[0].length])
    ensures |next| == |image|
    ensures forall i :: 0 <= i < |image| && !InRange(rs[0], i) ==> next[i] == image[i]
  {
    SpliceOverwrites(image, rs[0].address, value[offset..offset + rs[0].length]);
  }

  /** A byte outside the first range, kept by the first splice and by the rest of the loop, is kept. */
  lemma FrameJoin(image: seq<Byte>, rs: seq<ByteRange>, next: seq<Byte>, w: seq<Byte>)
    requires rs != [] && |next| == |image| && |w| == |next|
    requires forall i :: 0 <= i < |image| && !InRange(rs[0], i) ==> next[i] == image[i]
    requires forall i :: 0 <= i < |next| && !Covered(rs[1..], i) ==> w[i] == next[i]
    ensures forall i :: 0 <= i < |image| && !Covered(rs, i) ==> w[i] == image[i]
  {
  }

  /** The splice loop leaves every byte outside the ranges as it was. */
  lemma {:induction false} WriteRangesFrame(image: seq<Byte>, rs: seq<ByteRange>, value: seq<Byte>, offset: nat)
    requires RangesWithin(rs, |image|)
    requires offset + SumLengths(rs) <= |value|
    decreases |rs|
    ensures |WriteRanges(image, rs, value, offset)| == |image|
    ensures forall i :: 0 <= i < |image| && !Covered(rs, i) ==> WriteRanges(image, rs, value, offset)[i] == image[i]
  {
    if rs != [] {
      var next := StepFacts(image, rs, value, offset);
      WriteRangesFrame(next, rs[1..], value, offset + rs[0].length);
      StepKeeps(image, rs, value, offset, next);
      WriteUnfold(image, rs, value, offset);
      FrameJoin(image, rs, next, WriteRanges(image, rs, value, offset));
    }
  }

  /** No index of a range is covered by ranges it is apart from. */
  lemma {:induction false} ApartNotCovered(r: ByteRange, rs: seq<ByteRange>, i: int)
    requires ApartFromAll(r, rs) && InRange(r, i)
    ensures !Covered(rs, i)
  {
    if rs != [] {
      ApartNotCovered(r, rs[1..], i);
    }
  }

  /** Two images that agree byte by byte on a window agree on the window. */
  lemma WindowKept(next: seq<Byte>, w: seq<Byte>, a: nat, l: nat)
    requires |w| == |next| && a + l <= |next|
    requires forall i :: a <= i < a + l ==> w[i] == next[i]
    ensures w[a..a + l] == next[a..a + l]
  {
  }

  /** An image that keeps every byte outside `rest` keeps a range apart from all of `rest`. */
  lemma KeptByFrame(r: ByteRange, rest: seq<ByteRange>, next: seq<Byte>, w: seq<Byte>)
    requires ApartFromAll(r, rest) && |w| == |next| && r.address + r.length <= |next|
    requires forall i :: 0 <= i < |next| && !Covered(rest, i) ==> w[i] == next[i]
    ensures w[r.address..r.address + r.length] == next[r.address..r.address + r.length]
  {
    forall i | r.address <= i < r.address + r.length ensures w[i] == next[i] {
      ApartNotCovered(r, rest, i);
    }
    WindowKept(next, w, r.address, r.length);
  }

  /** The later ranges of a disjoint list leave the first range's bytes alone. */
  lemma FirstRangeKept(next: seq<Byte>, rs: seq<ByteRange>, value: seq<Byte>, offset: nat)
    requires rs != [] && ApartFromAll(rs[0], rs[1..])
    requires rs[0].address + rs[0].length <= |next| && RangesWithin(rs[1..], |next|)
    requires offset + rs[0].length + SumLengths(rs[1..]) <= |value|
    ensures var w := WriteRanges(next, rs[1..], value, offset + rs[0].length);
      |w| == |next| && w[rs[0].address..rs[0].address + rs[0].length] == next[rs[0].address..rs[0].address + rs[0].length]
  {
    WriteRangesFrame(next, rs[1..], value, offset + rs[0].length);
    KeptByFrame(rs[0], rs[1..], next, WriteRanges(next, rs[1..], value, offset + rs[0].length));
  }

  /** After the whole loop, the first range holds the first bytes of the value. */
  lemma FirstRangeWritten(image: seq<Byte>, rs: seq<ByteRange>, value: seq<Byte>, offset: nat)
    requires rs != [] && PairwiseDisjoint(rs) && RangesWithin(rs, |image|)
    requires offset + SumLengths(rs) <= |value|
    ensures var w := WriteRanges(image, rs, value, offset);
      |w| == |image| && rs[0].address + rs[0].length <= |w|
      && w[rs[0].address..rs[0].address + rs[0].length] == value[offset..offset + rs[0].length]
  {
    var next := WriteStepShape(image, rs, value, offset);
    SpliceOverwrites(image, rs[0].address, value[offset..offset + rs[0].length]);
    FirstRangeKept(next, rs, value, offset);
  }

  /** The first range holding the first bytes and the others the rest: all of them hold the value. */
  lemma SliceJoin(rs: seq<ByteRange>, w: seq<Byte>, value: seq<Byte>, offset: nat)
    requires rs != [] && rs[0].address + rs[0].length <= |w|
    requires offset + SumLengths(rs) <= |value|
    requires w[rs[0].address..rs[0].address + rs[0].length] == value[offset..offset + rs[0].length]
    requires SliceRanges(rs[1..], w) == value[offset + rs[0].length..offset + rs[0].length + SumLengths(rs[1..])]
    ensures SliceRanges(rs, w) == value[offset..offset + SumLengths(rs)]
  {
    ValueSplit(value, offset, rs);
    SliceHead(rs, w);
  }

  /** Once the other ranges slice back to the rest of the value, all of them slice back to it. */
  lemma SliceAfterFirst(image: seq<Byte>, rs: seq<ByteRange>, value: seq<Byte>, offset: nat)
    requires rs != [] && PairwiseDisjoint(rs) && RangesWithin(rs, |image|)
    requires offset + SumLengths(rs) <= |value|
    requires SliceRanges(rs[1..], WriteRanges(image, rs, value, offset))
          == value[offset + rs[0].length..offset + rs[0].length + SumLengths(rs[1..])]
    ensures SliceRanges(rs, WriteRanges(image, rs, value, offset)) == value[offset..offset + SumLengths(rs)]
  {
    FirstRangeWritten(image, rs, value, offset);
    SliceJoin(rs, WriteRanges(image, rs, value, offset), value, offset);
  }

  /** The same, given the slices of the other ranges after the loop that starts after the first splice. */
  lemma SliceAfterStep(image: seq<Byte>, rs: seq<ByteRange>, value: seq<Byte>, offset: nat, next: seq<Byte>)
    requires rs != [] && PairwiseDisjoint(rs) && RangesWithin(rs, |image|)
    requires offset + SumLengths(rs) <= |value|
    requires next == Splice(image, rs[0].address, rs[0].length, value[offset..offset + rs[0].length])
    requires SliceRanges(rs[1..], WriteRanges(next, rs[1..], value, offset + rs[0].length))
          == value[offset + rs[0].length..offset + rs[0].length + SumLengths(rs[1..])]
    ensures SliceRanges(rs, WriteRanges(image, rs, value, offset)) == value[offset..offset + SumLengths(rs)]
  {
    WriteUnfold(image, rs, value, offset);
    SliceAfterFirst(image, rs, value, offset);
  }

  /**
   * With ranges inside the image and pairwise disjoint, and a value long enough, the
   * ranges slice back to exactly the bytes the splice loop wrote.
   */
  lemma {:induction false} WriteRangesSlice(image: seq<Byte>, rs: seq<ByteRange>, value: seq<Byte>, offset: nat)
    requires RangesWithin(rs, |image|) && PairwiseDisjoint(rs)
    requires offset + SumLengths(rs) <= |value|
    decreases |rs|
    ensures SliceRanges(rs, WriteRanges(image, rs, value, offset)) == value[offset..offset + SumLengths(rs)]
  {
    if rs != [] {
      var next := StepFacts(image, rs, value, offset);
      WriteRangesSlice(next, rs[1..], value, offset + rs[0].length);
      SliceAfterStep(image, rs, value, offset, next);
    }
  }

  /** Two images that agree on every covered byte slice the ranges alike. */
  lemma {:induction false} SliceAgrees(rs: seq<ByteRange>, a: seq<Byte>, b: seq<Byte>)
    requires |a| == |b| && RangesWithin(rs, |a|)
    requires forall i :: 0 <= i < |a| && Covered(rs, i) ==> a[i] == b[i]
    ensures SliceRanges(rs, a) == SliceRanges(rs, b)
  {
    if rs != [] {
      var tail := rs[1..];
      SliceAgrees(tail, a, b);
      var r := rs[0];
      assert a[r.address..r.address + r.length] == b[r.address..r.address + r.length] by {
        forall i | r.address <= i < r.address + r.length ensures a[i] == b[i] {
          assert Covered(rs, i);
        }
      }
    }
  }

  /** A setting whose ranges miss every range of the written one reads back unchanged. */
  lemma WriteLeavesOthers(image: seq<Byte>, x: Setting, value: seq<Byte>, y: Setting)
    requires RangesWithin(x.byteRanges, |image|) && PairwiseDisjoint(x.byteRanges)
    requires RangesWithin(y.byteRanges, |image|)
    requires Length(x) <= |value|
    requires forall p, q :: 0 <= p < |x.byteRanges| && 0 <= q < |y.byteRanges| ==>
               Disjoint(x.byteRanges[p], y.byteRanges[q])
    ensures SliceBytes(y, WriteSetting(image, x, value)) == SliceBytes(y, image)
  {
    var w := WriteSetting(image, x, value);
    WriteRangesLength(image, x.byteRanges, value, 0);
    WriteRangesFrame(image, x.byteRanges, value, 0);
    forall i | 0 <= i < |w| && Covered(y.byteRanges, i) ensures w[i] == image[i] {
      CoveredIff(y.byteRanges, i);
      CoveredIff(x.byteRanges, i);
      var q :| 0 <= q < |y.byteRanges| && InRange(y.byteRanges[q], i);
    }
    SliceAgrees(y.byteRanges, w, image);
  }

  /** Writing a setting with a value of its own length reads back as that value. */
  lemma WriteThenSlice(image: seq<Byte>, s: Setting, value: seq<Byte>)
    requires RangesWithin(s.byteRanges, |image|) && PairwiseDisjoint(s.byteRanges)
    requires |value| == Length(s)
    ensures |WriteSetting(image, s, value)| == |image|
    ensures SliceBytes(s, WriteSetting(image, s, value)) == value
    ensures forall i :: 0 <= i < |image| && !Covered(s.byteRanges, i) ==> WriteSetting(image, s, value)[i] == image[i]
  {
    WriteRangesLength(image, s.byteRanges, value, 0);
    WriteRangesFrame(image, s.byteRanges, value, 0);
    WriteRangesSlice(image, s.byteRanges, value, 0);
  }

  // ---------------------------------------------------------------------------
  // The 1.4.2 schema on an image.
  // ---------------------------------------------------------------------------

  /** One past the last byte any 1.4.2 setting uses (`input` at 0x5869). */
  const SchemaEnd: nat := 0x586a

  lemma SchemaFits(j: nat, size: nat)
    requires j < |Settings142| && SchemaEnd <= size
    ensures RangesWithin(Settings142[j].byteRanges, size) && PairwiseDisjoint(Settings142[j].byteRanges)
    ensures |Settings142[j].byteRanges| == 1 && Length(Settings142[j]) == Settings142[j].byteRanges[0].length
  {
    LayoutOfSettings();
    Below20(j);
    SingleRangeLength(Settings142[j]);
  }

  /** Distinct schema settings share no byte. */
  lemma SchemaApart(i: nat, j: nat)
    requires i < |Settings142| && j < |Settings142| && Settings142[i] != Settings142[j]
    ensures forall p, q :: 0 <= p < |Settings142[i].byteRanges| && 0 <= q < |Settings142[j].byteRanges| ==>
              Disjoint(Settings142[i].byteRanges[p], Settings142[j].byteRanges[q])
  {
    RangesDisjoint();
    if j < i {
      assert SettingsDisjoint(Settings142[j], Settings142[i]);
    } else {
      assert SettingsDisjoint(Settings142[i], Settings142[j]);
    }
  }

  /** Distinct positions of the schema hold distinct settings (their names differ). */
  lemma SchemaDistinct(i: nat, j: nat)
    requires i < |Settings142| && j < |Settings142| && i != j
    ensures Settings142[i] != Settings142[j]
  {
    NamesUnique();
    if i < j {
      assert Settings142[i].name != Settings142[j].name;
    } else {
      assert Settings142[j].name != Settings142[i].name;
    }
  }

  /**
   * Writing a value of the right length for the `j`th schema setting keeps the image
   * size, makes that setting read back the value and leaves every other setting as it was.
   */
  lemma WriteSchemaSetting(image: seq<Byte>, j: nat, value: seq<Byte>)
    requires j < |Settings142| && SchemaEnd <= |image| && |value| == Length(Settings142[j])
    ensures |WriteSetting(image, Settings142[j], value)| == |image|
    ensures SliceBytes(Settings142[j], WriteSetting(image, Settings142[j], value)) == value
    ensures forall i :: 0 <= i < |Settings142| && i != j ==>
      SliceBytes(Settings142[i], WriteSetting(image, Settings142[j], value)) == SliceBytes(Settings142[i], image)
  {
    var s := Settings142[j];
    SchemaFits(j, |image|);
    WriteThenSlice(image, s, value);
    forall i | 0 <= i < |Settings142| && i != j
      ensures SliceBytes(Settings142[i], WriteSetting(image, s, value)) == SliceBytes(Settings142[i], image)
    {
      SchemaDistinct(j, i);
      SchemaFits(i, |image|);
      SchemaApart(j, i);
      WriteLeavesOthers(image, s, value, Settings142[i]);
    }
  }

  // ---------------------------------------------------------------------------
  // `setValues`: every value in collection order, no schema check.
  // ---------------------------------------------------------------------------

  /** A setting descriptor paired with the bytes of its value (a value object's contents). */
  type Entry = (Setting, seq<Byte>)

  /** Every entry's ranges lie inside an image of `size` bytes and its value covers them. */
  predicate EntriesFit(vals: seq<Entry>, size: nat) {
    forall k :: 0 <= k < |vals| ==> RangesWithin(vals[k].0.byteRanges, size) && Length(vals[k].0) <= |vals[k].1|
  }

  /** `setValues`: every entry spliced in, in collection order. */
  function WriteAll(image: seq<Byte>, vals: seq<Entry>): (r: seq<Byte>)
    decreases |vals|
    ensures EntriesFit(vals, |image|) ==> |r| == |image|
  {
    if vals == [] then image
    else
      assert forall k :: 0 <= k < |vals[1..]| ==> vals[1..][k] == vals[k + 1];
      WriteAll(WriteSetting(image, vals[0].0, vals[0].1), vals[1..])
  }

  /** The bytes the last entry for `s` carries, or `current` when no entry is for `s`. */
  function LastValue(vals: seq<Entry>, s: Setting, current: seq<Byte>): seq<Byte>
    decreases |vals|
  {
    if vals == [] then current
    else LastValue(vals[1..], s, if vals[0].0 == s then vals[0].1 else current)
  }

  /** Entries whose descriptors are the schema's `ids`, each with a value of the right length. */
  predicate SchemaEntries(vals: seq<Entry>, ids: seq<nat>) {
    |ids| == |vals|
    && forall k :: 0 <= k < |vals| ==>
         ids[k] < |Settings142| && vals[k].0 == Settings142[ids[k]] && |vals[k].1| == Length(vals[k].0)
  }

  /**
   * On a full-size image, writing schema values in order leaves each setting holding the
   * last value written for it (or its old bytes); the image keeps its size.
   */
  lemma {:induction false} SetValuesLastWins(image: seq<Byte>, vals: seq<Entry>, ids: seq<nat>, j: nat)
    requires SchemaEnd <= |image| && SchemaEntries(vals, ids) && j < |Settings142|
    decreases |vals|
    ensures |WriteAll(image, vals)| == |image|
    ensures SliceBytes(Settings142[j], WriteAll(image, vals))
         == LastValue(vals, Settings142[j], SliceBytes(Settings142[j], image))
  {
    if vals != [] {
      var x := vals[0].0;
      var v := vals[0].1;
      var s := Settings142[j];
      SchemaFits(ids[0], |image|);
      SchemaFits(j, |image|);
      WriteThenSlice(image, x, v);
      var next := WriteSetting(image, x, v);
      if x != s {
        SchemaApart(ids[0], j);
        WriteLeavesOthers(image, x, v, s);
      }
      assert SliceBytes(s, next) == if x == s then v else SliceBytes(s, image);
      assert SchemaEntries(vals[1..], ids[1..]) by {
        assert forall k :: 0 <= k < |vals[1..]| ==> vals[1..][k] == vals[k + 1] && ids[1..][k] == ids[k + 1];
      }
      SetValuesLastWins(next, vals[1..], ids[1..], j);
    }
  }

  /** When exactly one entry is for `s`, its bytes are what `s` ends up with. */
  lemma {:induction false} LastValueUnique(vals: seq<Entry>, s: Setting, current: seq<Byte>, k: nat)
    requires k < |vals| && vals[k].0 == s
    requires forall m :: 0 <= m < |vals| && m != k ==> vals[m].0 != s
    decreases |vals|
    ensures LastValue(vals, s, current) == vals[k].1
  {
    if k == 0 {
      LastValueAbsent(vals[1..], s, vals[0].1);
    } else {
      assert vals[1..][k - 1] == vals[k];
      assert forall m :: 0 <= m < |vals[1..]| && m != k - 1 ==> vals[1..][m] == vals[m + 1];
      LastValueUnique(vals[1..], s, current, k - 1);
    }
  }

  lemma {:induction false} LastValueAbsent(vals: seq<Entry>, s: Setting, current: seq<Byte>)
    requires forall m :: 0 <= m < |vals| ==> vals[m].0 != s
    decreases |vals|
    ensures LastValue(vals, s, current) == current
  {
    if vals != [] {
      assert forall m :: 0 <= m < |vals[1..]| ==> vals[1..][m] == vals[m + 1];
      LastValueAbsent(vals[1..], s, current);
    }
  }

  // ---------------------------------------------------------------------------
  // Instance writes (`_setValueWithInstance`): the name is checked first.
  // ---------------------------------------------------------------------------

  /** `_setValueWithInstance` on an image: SettingNotSupportedError, or the spliced image. */
  function WriteChecked(image: seq<Byte>, e: Entry): (r: Result<seq<Byte>>)
    ensures r.Err? <==> !Has(Table142, e.0.name)
    ensures r.Err? ==> r.error == SettingNotSupported(e.0.name)
    ensures r.Ok? ==> r.value == WriteSetting(image, e.0, e.1)
  {
    if Has(Table142, e.0.name) then Ok(WriteSetting(image, e.0, e.1)) else Err(SettingNotSupported(e.0.name))
  }

  /** Instance writes in order, stopping at the first failure with the image reached so far. */
  function WriteEach(image: seq<Byte>, vals: seq<Entry>): (r: Written)
    decreases |vals|
    ensures r.error.None? ==> r.value == WriteAll(image, vals)
    ensures r.error.Some? ==> r.error.value.SettingNotSupported? && !Has(Table142, r.error.value.key)
  {
    if vals == [] then Written(image, None)
    else
      match WriteChecked(image, vals[0])
      case Err(e) => Written(image, Some(e))
      case Ok(next) => WriteEach(next, vals[1..])
  }

  /** Schema entries always pass the name check, so checked writes are `setValues`. */
  lemma {:induction false} WriteEachSchema(image: seq<Byte>, vals: seq<Entry>, ids: seq<nat>)
    requires SchemaEntries(vals, ids)
    decreases |vals|
    ensures WriteEach(image, vals) == Written(WriteAll(image, vals), None)
  {
    if vals != [] {
      LookupDeclared(ids[0]);
      assert SchemaEntries(vals[1..], ids[1..]) by {
        assert forall k :: 0 <= k < |vals[1..]| ==> vals[1..][k] == vals[k + 1] && ids[1..][k] == ids[k + 1];
      }
      WriteEachSchema(WriteSetting(image, vals[0].0, vals[0].1), vals[1..], ids[1..]);
    }
  }

  /** A single supported value object is written as it is. */
  lemma WriteEachOne(image: seq<Byte>, e: Entry)
    requires Has(Table142, e.0.name)
    ensures WriteEach(image, [e]) == Written(WriteSetting(image, e.0, e.1), None)
  {
    WriteEachSingle(image, e);
  }

  /** Writing a one-value collection is one checked write. */
  lemma WriteEachSingle(image: seq<Byte>, e: Entry)
    ensures var c := WriteChecked(image, e);
      WriteEach(image, [e]) == if c.Err? then Written(image, Some(c.error)) else Written(c.value, None)
  {
    assert [e][1..] == [];
  }

  // ---------------------------------------------------------------------------
  // Primitive writes (`_setValueWithPrimitive`) and plain objects.
  // ---------------------------------------------------------------------------

  /** The errors a setting write raises: an unknown name, a type mismatch or a bad number. */
  predicate SettingError(e: ProfileError) {
    e.SettingNotSupported? || e.SettingType? || e.SettingValidation? || e == NotImplementedYet
  }

  /**
   * `setValue(name, primitive)` on an image: look the setting up (SettingNotSupportedError),
   * read its current value, `set` it (its error propagates, the image unchanged), then
   * write it back.
   */
  function SetPrimitive(image: seq<Byte>, key: string, val: JsPrimitive): (r: Result<seq<Byte>>)
    ensures !Has(Table142, key) ==> r == Err(SettingNotSupported(key))
    ensures r.Err? ==> SettingError(r.error)
  {
    match Get(Table142, key)
    case Err(e) => Err(e)
    case Ok(s) =>
      var w := SetValue(s, SliceBytes(s, image), val);
      if w.error.Some? then Err(w.error.value)
      else WriteChecked(image, (s, w.value))
  }

  /** The name of the `j`th schema setting is found, and `SetPrimitive` uses that setting. */
  lemma SetPrimitiveOnSchema(image: seq<Byte>, j: nat, val: JsPrimitive)
    requires j < |Settings142| && SchemaEnd <= |image|
    ensures var s := Settings142[j];
      var w := SetValue(s, SliceBytes(s, image), val);
      SetPrimitive(image, s.name, val)
        == if w.error.Some? then Err(w.error.value) else Ok(WriteSetting(image, s, w.value))
    ensures |SliceBytes(Settings142[j], image)| == Length(Settings142[j])
  {
    LookupDeclared(j);
    SchemaFits(j, |image|);
  }

  /**
   * Profile-level integer round trip: setting an INT or SIGNED_INT schema setting to an
   * in-range number reads back that number, keeps the image size and leaves every other
   * schema setting unchanged.
   */
  lemma SetThenGetInt(image: seq<Byte>, j: nat, n: int)
    requires j < |Settings142| && SchemaEnd <= |image|
    requires Settings142[j].dtype in {INT, SIGNED_INT} && Length(Settings142[j]) == 1
    requires InByteRange(Settings142[j].dtype, n)
    ensures SetPrimitive(image, Settings142[j].name, Num(n)).Ok?
    ensures var after := SetPrimitive(image, Settings142[j].name, Num(n)).value;
      |after| == |image|
      && DecodeInt(Settings142[j].dtype, Length(Settings142[j]), SliceBytes(Settings142[j], after)) == Ok(n)
      && forall i :: 0 <= i < |Settings142| && i != j ==>
           SliceBytes(Settings142[i], after) == SliceBytes(Settings142[i], image)
  {
    var s := Settings142[j];
    SetPrimitiveOnSchema(image, j, Num(n));
    assert SetValue(s, SliceBytes(s, image), Num(n)) == EncodeInt(s, n);
    IntRoundTrip(s, n);
    WriteSchemaSetting(image, j, EncodeInt(s, n).value);
  }


  /**
   * Profile-level string round trip: setting a STR schema setting to text of codes
   * 1..255 that fits reads back as that text padded with NULs, and leaves every other
   * schema setting unchanged.
   */
  lemma SetThenGetString(image: seq<Byte>, j: nat, text: string)
    requires j < |Settings142| && SchemaEnd <= |image|
    requires Settings142[j].dtype == STR && |text| <= Length(Settings142[j])
    requires forall i :: 0 <= i < |text| ==> 0 < text[i] as int < 256
    ensures SetPrimitive(image, Settings142[j].name, Str(text)).Ok?
    ensures var after := SetPrimitive(image, Settings142[j].name, Str(text)).value;
      |after| == |image|
      && DecodeString(SliceBytes(Settings142[j], after))
         == (if text == "" then "" else text + seq(Length(Settings142[j]) - |text|, _ => '\0'))
      && forall i :: 0 <= i < |Settings142| && i != j ==>
           SliceBytes(Settings142[i], after) == SliceBytes(Settings142[i], image)
  {
    var s := Settings142[j];
    SetPrimitiveOnSchema(image, j, Str(text));
    assert SetValue(s, SliceBytes(s, image), Str(text)) == Written(EncodeString(text, Length(s)), None);
    StringRoundTrip(text, Length(s));
    WriteSchemaSetting(image, j, EncodeString(text, Length(s)));
  }

  /** Flattened pairs applied in order; the first failure stops, keeping what was applied. */
  function ApplyPairs(image: seq<Byte>, pairs: seq<(string, JsPrimitive)>): (r: Written)
    decreases |pairs|
    ensures r.error.Some? ==> SettingError(r.error.value)
  {
    if pairs == [] then Written(image, None)
    else
      match SetPrimitive(image, pairs[0].0, pairs[0].1)
      case Err(e) => Written(image, Some(e))
      case Ok(next) => ApplyPairs(next, pairs[1..])
  }

  /**
   * No rollback: a failed run stopped at pair k, holding the image the first k pairs
   * produced, and pair k is the one whose write failed with the reported error.
   */
  lemma {:induction false} ApplyPairsStopsAtFailure(image: seq<Byte>, pairs: seq<(string, JsPrimitive)>)
    requires ApplyPairs(image, pairs).error.Some?
    decreases |pairs|
    ensures exists k :: (0 <= k < |pairs|
      && ApplyPairs(image, pairs[..k]) == Written(ApplyPairs(image, pairs).value, None)
      && SetPrimitive(ApplyPairs(image, pairs).value, pairs[k].0, pairs[k].1)
         == Err(ApplyPairs(image, pairs).error.value))
  {
    var r := ApplyPairs(image, pairs);
    match SetPrimitive(image, pairs[0].0, pairs[0].1)
    case Err(e) =>
      assert pairs[..0] == [];
    case Ok(next) =>
      ApplyPairsStopsAtFailure(next, pairs[1..]);
      var k :| 0 <= k < |pairs[1..]|
        && ApplyPairs(next, pairs[1..][..k]) == Written(r.value, None)
        && SetPrimitive(r.value, pairs[1..][k].0, pairs[1..][k].1) == Err(r.error.value);
      assert pairs[..k + 1][1..] == pairs[1..][..k];
      assert ApplyPairs(image, pairs[..k + 1]) == ApplyPairs(next, pairs[1..][..k]);
  }

  /** A run without failure applied every pair. */
  lemma {:induction false} ApplyPairsAppend(image: seq<Byte>, pairs: seq<(string, JsPrimitive)>, p: (string, JsPrimitive))
    decreases |pairs|
    ensures var w := ApplyPairs(image, pairs);
      ApplyPairs(image, pairs + [p]) ==
        if w.error.Some? then w
        else match SetPrimitive(w.value, p.0, p.1)
             case Err(e) => Written(w.value, Some(e))
             case Ok(next) => Written(next, None)
  {
    if pairs == [] {
      assert [p][1..] == [];
    } else {
      assert (pairs + [p])[1..] == pairs[1..] + [p];
      match SetPrimitive(image, pairs[0].0, pairs[0].1)
      case Err(e) =>
      case Ok(next) => ApplyPairsAppend(next, pairs[1..], p);
    }
  }

  // ---------------------------------------------------------------------------
  // Reading by scope (`getValues`, `matchesAnyScope`).
  // ---------------------------------------------------------------------------

  /** A string scope matches by prefix; a RegExp or function scope is an arbitrary test. */
  datatype Scope =
    | Prefix(prefix: string)
    | Pattern(test: string -> bool)
    | Predicate(holds: string -> bool)

  predicate Matches(scope: Scope, key: string)
    ensures scope.Prefix? ==>
      (Matches(scope, key) <==> |scope.prefix| <= |key| && scope.prefix + key[|scope.prefix|..] == key)
    ensures scope == Prefix("") ==> Matches(scope, key)
  {
    match scope
    case Prefix(p) => JsText.StartsWith(key, p)
    case Pattern(t) => t(key)
    case Predicate(f) => f(key)
  }

  /** `matchesAnyScope`: `scopes.some(...)`. */
  predicate MatchesAnyScope(key: string, scopes: seq<Scope>)
    ensures scopes == [] ==> !MatchesAnyScope(key, scopes)
    ensures forall k :: 0 <= k < |scopes| && Matches(scopes[k], key) ==> MatchesAnyScope(key, scopes)
  {
    exists k :: 0 <= k < |scopes| && Matches(scopes[k], key)
  }

  /** No scope at all means `[() => true]`. */
  function FilterScopes(scopes: seq<Scope>): (r: seq<Scope>)
    ensures r != []
    ensures forall key :: MatchesAnyScope(key, r) <==> scopes == [] || MatchesAnyScope(key, scopes)
  {
    if scopes == [] then
      var all := [Predicate(_ => true)];
      assert forall key :: MatchesAnyScope(key, all) by {
        forall key ensures MatchesAnyScope(key, all) {
          assert Matches(all[0], key);
        }
      }
      all
    else scopes
  }

  /** `filter` of the settings by their names. */
  function Select(ss: seq<Setting>, scopes: seq<Scope>): (r: seq<Setting>)
    ensures |r| <= |ss|
  {
    if ss == [] then []
    else
      var init := ss[..|ss| - 1];
      var last := ss[|ss| - 1];
      assert ss == init + [last];
      Select(init, scopes) + (if MatchesAnyScope(last.name, scopes) then [last] else [])
  }

  /** A setting is selected exactly when it is listed and its name matches some scope. */
  lemma {:induction false} SelectMembers(ss: seq<Setting>, scopes: seq<Scope>, x: Setting)
    decreases |ss|
    ensures x in Select(ss, scopes) <==> x in ss && MatchesAnyScope(x.name, scopes)
  {
    if ss != [] {
      var init := ss[..|ss| - 1];
      var last := ss[|ss| - 1];
      assert ss == init + [last];
      SelectMembers(init, scopes, x);
    }
  }

  function Selected(scopes: seq<Scope>): seq<Setting> {
    Select(Settings142, FilterScopes(scopes))
  }

  /** Each setting with its sliced bytes, as `getValues` builds them. */
  function Pairs(ss: seq<Setting>, image: seq<Byte>): (r: seq<Entry>)
    ensures |r| == |ss| && forall i :: 0 <= i < |ss| ==> r[i] == (ss[i], SliceBytes(ss[i], image))
  {
    seq(|ss|, i requires 0 <= i < |ss| => (ss[i], SliceBytes(ss[i], image)))
  }

  function ValuesOf(scopes: seq<Scope>, image: seq<Byte>): seq<Entry> {
    Pairs(Selected(scopes), image)
  }

  /** A filter every setting passes keeps the list as it is. */
  lemma {:induction false} SelectAll(ss: seq<Setting>, scopes: seq<Scope>)
    requires forall i :: 0 <= i < |ss| ==> MatchesAnyScope(ss[i].name, scopes)
    decreases |ss|
    ensures Select(ss, scopes) == ss
  {
    if ss != [] {
      var init := ss[..|ss| - 1];
      assert forall i :: 0 <= i < |init| ==> init[i] == ss[i];
      SelectAll(init, scopes);
      assert ss == init + [ss[|ss| - 1]];
    }
  }

  /** `getValues()` with no scope yields the whole schema, in schema order. */
  lemma GetValuesUnscoped()
    ensures Selected([]) == Settings142
  {
    var scopes := FilterScopes([]);
    forall i | 0 <= i < |Settings142| ensures MatchesAnyScope(Settings142[i].name, scopes) {
      assert Matches(scopes[0], Settings142[i].name);
    }
    SelectAll(Settings142, scopes);
  }

  // ---------------------------------------------------------------------------
  // `merge`: sources applied left to right to a clone.
  // ---------------------------------------------------------------------------

  /** What a merge source contributes, read off its objects. */
  datatype SourceData =
    | ProfileData(image: seq<Byte>)
    | ValuesData(values: seq<Entry>)
    | ObjectData(pairs: seq<(string, JsPrimitive)>)

  /**
   * One source: a profile writes every schema setting's bytes as value objects, a value
   * collection or a single value is written object by object, a plain object is
   * flattened into name/primitive pairs.
   */
  function MergeStep(image: seq<Byte>, d: SourceData): (r: Written)
    ensures r.error.Some? ==> SettingError(r.error.value)
    ensures d.ValuesData? && r.error.None? ==> r.value == WriteAll(image, d.values)
  {
    match d
    case ProfileData(p) => WriteEach(image, ValuesOf([], p))
    case ValuesData(vals) => WriteEach(image, vals)
    case ObjectData(pairs) => ApplyPairs(image, pairs)
  }

  function MergeAll(image: seq<Byte>, ds: seq<SourceData>): (r: Written)
    decreases |ds|
    ensures r.error.Some? ==> SettingError(r.error.value)
  {
    if ds == [] then Written(image, None)
    else
      var w := MergeStep(image, ds[0]);
      if w.error.Some? then w else MergeAll(w.value, ds[1..])
  }

  /** The identity list of schema indices. */
  function AllIds(n: nat): (ids: seq<nat>)
    ensures |ids| == n && forall k :: 0 <= k < n ==> ids[k] == k
  {
    seq(n, k requires 0 <= k < n => k)
  }

  /**
   * Merging a profile copies every schema setting of the source into the target and
   * never fails.
   */
  lemma MergeProfileCopies(image: seq<Byte>, source: seq<Byte>, j: nat)
    requires SchemaEnd <= |image| && SchemaEnd <= |source| && j < |Settings142|
    ensures MergeStep(image, ProfileData(source)).error == None
    ensures |MergeStep(image, ProfileData(source)).value| == |image|
    ensures SliceBytes(Settings142[j], MergeStep(image, ProfileData(source)).value)
         == SliceBytes(Settings142[j], source)
  {
    GetValuesUnscoped();
    var vals := ValuesOf([], source);
    var ids := AllIds(|Settings142|);
    forall k | 0 <= k < |vals| ensures |vals[k].1| == Length(vals[k].0) {
      SchemaFits(k, |source|);
    }
    assert SchemaEntries(vals, ids);
    WriteEachSchema(image, vals, ids);
    SetValuesLastWins(image, vals, ids, j);
    NamesUnique();
    LastValueUnique(vals, Settings142[j], SliceBytes(Settings142[j], image), j);
  }

  lemma {:induction false} MergeAppend(image: seq<Byte>, ds: seq<SourceData>, d: SourceData)
    decreases |ds|
    ensures var w := MergeAll(image, ds);
      MergeAll(image, ds + [d]) == if w.error.Some? then w else MergeStep(w.value, d)
  {
    if ds == [] {
      assert [d][1..] == [];
      var w := MergeStep(image, d);
      if w.error.None? {
        assert MergeAll(w.value, []) == Written(w.value, None);
      }
    } else {
      assert (ds + [d])[1..] == ds[1..] + [d];
      var w := MergeStep(image, ds[0]);
      if w.error.None? {
        MergeAppend(w.value, ds[1..], d);
      }
    }
  }

  /**
   * Sources are applied left to right: a value given after every other source is what
   * its setting ends up holding.
   */
  lemma MergeLastValueWins(image: seq<Byte>, ds: seq<SourceData>, j: nat, v: seq<Byte>)
    requires j < |Settings142| && |v| == Length(Settings142[j])
    requires MergeAll(image, ds).error == None && SchemaEnd <= |MergeAll(image, ds).value|
    ensures MergeAll(image, ds + [ValuesData([(Settings142[j], v)])]).error == None
    ensures SliceBytes(Settings142[j], MergeAll(image, ds + [ValuesData([(Settings142[j], v)])]).value) == v
  {
    var w := MergeAll(image, ds);
    var e: Entry := (Settings142[j], v);
    MergeAppend(image, ds, ValuesData([e]));
    LookupDeclared(j);
    WriteEachOne(w.value, e);
    WriteSchemaSetting(w.value, j, v);
  }

  /**
   * A profile given as the last source wins for every setting: each schema setting of the
   * merged image holds that profile's bytes, whatever the earlier sources wrote.
   */
  lemma MergeLastProfileWins(image: seq<Byte>, ds: seq<SourceData>, source: seq<Byte>, j: nat)
    requires j < |Settings142| && SchemaEnd <= |source|
    requires MergeAll(image, ds).error == None && SchemaEnd <= |MergeAll(image, ds).value|
    ensures MergeAll(image, ds + [ProfileData(source)]).error == None
    ensures |MergeAll(image, ds + [ProfileData(source)]).value| == |MergeAll(image, ds).value|
    ensures SliceBytes(Settings142[j], MergeAll(image, ds + [ProfileData(source)]).value)
         == SliceBytes(Settings142[j], source)
  {
    MergeAppend(image, ds, ProfileData(source));
    MergeProfileCopies(MergeAll(image, ds).value, source, j);
  }

  // ---------------------------------------------------------------------------
  // The header check of `fromBytes`.
  // ---------------------------------------------------------------------------

  /** The header setting's bytes read as text, the value `fromBytes` compares. */
  function HeaderValue(image: seq<Byte>): (r: string)
    ensures |r| <= 12
    ensures |image| >= 12 && image[0] != 0 ==> |r| == 12 && forall i :: 0 <= i < 12 ==> r[i] as int == image[i]
  {
    DecodeString(SliceBytes(Header, image))
  }

  /** `fromBytes` accepts exactly the images that start with the bytes of "RT4K Profile". */
  lemma HeaderCheck(image: seq<Byte>)
    ensures HeaderValue(image) == HeaderText <==> |image| >= 12 && image[..12] == HeaderBytes
  {
    HeaderDerivesSignature();
    var sl := SliceBytes(Header, image);
    assert Header.byteRanges[1..] == [];
    assert sl == Slice(image, 0, 12);
    if HeaderValue(image) == HeaderText {
      assert |sl| == 12;
      forall k | 0 <= k < 12 ensures sl[k] == HeaderBytes[k] {
        assert HeaderValue(image)[k] as int == sl[k];
        assert DecodeString(HeaderBytes)[k] as int == HeaderBytes[k];
      }
    }
  }

  // ---------------------------------------------------------------------------
  // CRC layout (`_getCrc`, `_writeCrc`, `getCrcString`).
  // ---------------------------------------------------------------------------

  const CrcWriteIndex: nat := 32

  const CrcStartIndex: nat := 128

  lemma CrcSplit(crc: int)
    ensures ((crc / 256) % 256) * 256 + crc % 256 == crc % 0x1_0000
  {
    var q := crc / 256;
    var r0 := crc % 256;
    var q2 := q / 256;
    var r1 := q % 256;
    assert crc == 0x1_0000 * q2 + (256 * r1 + r0);
    assert 0 <= 256 * r1 + r0 < 0x1_0000;
  }

  /**
   * `[crc & 0xff, (crc >> 8) & 0xff]`: for any integer these are the low and the high
   * byte of crc mod 2^16 (the 32-bit conversion of `>>` only removes multiples of 2^32).
   */
  function CrcBytes(crc: int): (r: seq<Byte>)
    ensures |r| == 2 && r[1] as int * 256 + r[0] as int == crc % 0x1_0000
  {
    CrcSplit(crc);
    [crc % 256, (crc / 256) % 256]
  }

  /**
   * `getCrcString`: the two bytes recombined (`(high << 8) | low`), as `0x` and four
   * upper-case hex digits.
   */
  function CrcString(crc: int): (r: string)
    ensures |r| == 6 && r[..2] == "0x"
    ensures forall i :: 2 <= i < 6 ==> JsText.IsHexDigit(r[i])
    ensures JsText.HexValue(r[2..]) == crc % 0x1_0000
  {
    var digits := HexWord(CrcValue(crc));
    assert ("0x" + digits)[2..] == digits;
    "0x" + digits
  }

  /** `(highByte << 8) | lowByte` over the two CRC bytes. */
  function CrcValue(crc: int): (v: nat)
    ensures v == crc % 0x1_0000
  {
    var b := CrcBytes(crc);
    b[1] as int * 256 + b[0] as int
  }

  /** `toString(16).toUpperCase().padStart(4, '0')` of a number below 2^16. */
  function HexWord(v: nat): (digits: string)
    requires v < 0x1_0000
    ensures |digits| == 4 && forall i :: 0 <= i < 4 ==> JsText.IsHexDigit(digits[i])
    ensures JsText.HexValue(digits) == v
  {
    JsText.HexUpperValue(v);
    JsText.HexPadValue(JsText.HexUpper(v), 4);
    JsText.PadStart(JsText.HexUpper(v), 4, '0')
  }

  /** The image after `_writeCrc`: the two CRC bytes at 32 and 33, nothing else. */
  function WithCrc(image: seq<Byte>, crc: int): (r: seq<Byte>)
    requires CrcWriteIndex + 2 <= |image|
    ensures |r| == |image|
    ensures r[CrcWriteIndex + 1] as int * 256 + r[CrcWriteIndex] as int == crc % 0x1_0000
    ensures forall i :: 0 <= i < |image| && i != CrcWriteIndex && i != CrcWriteIndex + 1 ==> r[i] == image[i]
  {
    var b := CrcBytes(crc);
    image[CrcWriteIndex := b[0]][CrcWriteIndex + 1 := b[1]]
  }

  /** Writing the CRC changes no setting of the schema. */
  lemma CrcLeavesSettings(image: seq<Byte>, crc: int, j: nat)
    requires SchemaEnd <= |image| && j < |Settings142|
    ensures SliceBytes(Settings142[j], WithCrc(image, crc)) == SliceBytes(Settings142[j], image)
  {
    var s := Settings142[j];
    var w := WithCrc(image, crc);
    RangesDisjoint();
    SchemaFits(j, |image|);
    assert AvoidsCrc(s);
    assert Disjoint(s.byteRanges[0], ByteRange(32, 2));
    forall i | 0 <= i < |image| && Covered(s.byteRanges, i) ensures w[i] == image[i] {
      CoveredIff(s.byteRanges, i);
      assert InRange(s.byteRanges[0], i);
    }
    SliceAgrees(s.byteRanges, w, image);
  }

  // ---------------------------------------------------------------------------
  // One step of each fold, taken at position k of a list.
  // ---------------------------------------------------------------------------

  lemma WriteAllAt(image: seq<Byte>, vals: seq<Entry>, k: nat)
    requires k < |vals|
    ensures WriteAll(image, vals[k..]) == WriteAll(WriteSetting(image, vals[k].0, vals[k].1), vals[k + 1..])
  {
    assert vals[k..][1..] == vals[k + 1..];
  }

  lemma WriteEachAt(image: seq<Byte>, vals: seq<Entry>, k: nat)
    requires k < |vals|
    ensures var c := WriteChecked(image, vals[k]);
      WriteEach(image, vals[k..]) ==
        if c.Err? then Written(image, Some(c.error)) else WriteEach(c.value, vals[k + 1..])
  {
    assert vals[k..][1..] == vals[k + 1..];
  }

  lemma ApplyPairsAt(image: seq<Byte>, pairs: seq<(string, JsPrimitive)>, k: nat)
    requires k < |pairs|
    ensures var c := SetPrimitive(image, pairs[k].0, pairs[k].1);
      ApplyPairs(image, pairs[k..]) ==
        if c.Err? then Written(image, Some(c.error)) else ApplyPairs(c.value, pairs[k + 1..])
  {
    assert pairs[k..][1..] == pairs[k + 1..];
  }

  lemma MergeAllAt(image: seq<Byte>, ds: seq<SourceData>, k: nat)
    requires k < |ds|
    ensures MergeAll(image, ds[k..]) ==
      var w := MergeStep(image, ds[k]);
      if w.error.Some? then w else MergeAll(w.value, ds[k + 1..])
  {
    assert ds[k..][1..] == ds[k + 1..];
  }

  lemma SelectAt(ss: seq<Setting>, scopes: seq<Scope>, k: nat)
    requires k < |ss|
    ensures Select(ss[..k + 1], scopes)
         == Select(ss[..k], scopes) + (if MatchesAnyScope(ss[k].name, scopes) then [ss[k]] else [])
  {
    assert ss[..k + 1][..k] == ss[..k];
  }

  // ---------------------------------------------------------------------------
  // Value collections and merge sources, read off the heap.
  // ---------------------------------------------------------------------------

  /** The objects of a value collection. */
  function Holders(t: Table<RetroTinkSettingValue>): set<object> {
    set i | 0 <= i < |t| :: t[i].1 as object
  }

  /** The buffers of a value collection's objects. */
  function Buffers(t: Table<RetroTinkSettingValue>): set<object>
    reads Holders(t)
  {
    set i | 0 <= i < |t| :: t[i].1.value as object
  }

  /** The descriptor and the current bytes of each value, in collection order. */
  function Snapshot(t: Table<RetroTinkSettingValue>): (r: seq<Entry>)
    reads Holders(t), Buffers(t)
    ensures |r| == |t|
    ensures forall i :: 0 <= i < |t| ==> r[i] == (t[i].1.setting, t[i].1.value[..])
  {
    if t == [] then []
    else Snapshot(t[..|t| - 1]) + [(t[|t| - 1].1.setting, t[|t| - 1].1.value[..])]
  }

  /** One argument of `merge`. */
  datatype Source =
    | FromProfile(profile: RetroTinkProfile)
    | FromValues(values: Table<RetroTinkSettingValue>)
    | FromValue(value: RetroTinkSettingValue)
    | FromObject(pairs: seq<(string, JsPrimitive)>)

  function Members(src: Source): set<object> {
    match src
    case FromProfile(p) => {p}
    case FromValues(t) => Holders(t)
    case FromValue(v) => {v}
    case FromObject(_) => {}
  }

  function BufferOf(src: Source): set<object>
    reads Members(src)
  {
    match src
    case FromProfile(p) => {p.bytes}
    case FromValues(t) => Buffers(t)
    case FromValue(v) => {v.value}
    case FromObject(_) => {}
  }

  /** What a source contributes, as bytes and pairs. */
  function Data(src: Source): SourceData
    reads Members(src), BufferOf(src)
  {
    match src
    case FromProfile(p) => ProfileData(p.bytes[..])
    case FromValues(t) => ValuesData(Snapshot(t))
    case FromValue(v) => ValuesData([(v.setting, v.value[..])])
    case FromObject(pairs) => ObjectData(pairs)
  }

  function AllMembers(srcs: seq<Source>): set<object> {
    set i, o | 0 <= i < |srcs| && o in Members(srcs[i]) :: o
  }

  function AllBuffers(srcs: seq<Source>): set<object>
    reads AllMembers(srcs)
  {
    set i, o | 0 <= i < |srcs| && o in BufferOf(srcs[i]) :: o
  }

  function AllData(srcs: seq<Source>): (r: seq<SourceData>)
    reads AllMembers(srcs), AllBuffers(srcs)
    ensures |r| == |srcs|
    ensures forall i :: 0 <= i < |srcs| ==> r[i] == Data(srcs[i])
  {
    if srcs == [] then []
    else AllData(srcs[..|srcs| - 1]) + [Data(srcs[|srcs| - 1])]
  }

  // ---------------------------------------------------------------------------
  // The profile object.
  // ---------------------------------------------------------------------------

  /** A profile image of the 1.4.2 schema; writes replace the buffer, the CRC is written in place. */
  class RetroTinkProfile {
    var bytes: array<Byte>

    /** The given buffer is kept as it is. */
    constructor (bytes: array<Byte>)
      ensures this.bytes == bytes
    {
      this.bytes := bytes;
    }

    /** `fromBytes`: accept the buffer when its header reads "RT4K Profile". */
    static method FromBytes(bytes: array<Byte>) returns (r: Result<RetroTinkProfile>)
      ensures r.Ok? <==> HeaderValue(bytes[..]) == HeaderText
      ensures r.Ok? ==> fresh(r.value) && r.value.bytes == bytes
      ensures r.Err? ==> r.error == InvalidProfileFormat(HeaderValue(bytes[..]))
    {
      var buf := ToArray(SliceBytes(Header, bytes[..]));
      var header := new RetroTinkSettingValue.WithBytes(Header, buf);
      var headerValue := header.AsString();
      if headerValue != HeaderText {
        return Err(InvalidProfileFormat(headerValue));
      }
      var profile := new RetroTinkProfile(bytes);
      return Ok(profile);
    }

    /** `getValue`: a fresh value object holding a copy of the setting's bytes. */
    method GetValue(key: string) returns (r: Result<RetroTinkSettingValue>)
      ensures r.Ok? <==> Has(Table142, key)
      ensures r.Err? ==> r.error == SettingNotSupported(key)
      ensures r.Ok? ==>
        fresh(r.value) && fresh(r.value.value)
        && Get(Table142, key) == Ok(r.value.setting)
        && r.value.value[..] == SliceBytes(r.value.setting, bytes[..])
    {
      var found := Get(Table142, key);
      if found.Err? {
        return Err(found.error);
      }
      var buf := ToArray(SliceBytes(found.value, bytes[..]));
      var v := new RetroTinkSettingValue.WithBytes(found.value, buf);
      return Ok(v);
    }

    /** `getValues(...scopes)`: the schema settings whose names match, in schema order. */
    method GetValues(scopes: seq<Scope>) returns (vs: Table<RetroTinkSettingValue>)
      ensures Snapshot(vs) == ValuesOf(scopes, bytes[..])
      ensures forall i :: 0 <= i < |vs| ==>
        fresh(vs[i].1) && fresh(vs[i].1.value) && vs[i].0 == vs[i].1.setting.name
    {
      vs := Collect(Settings142, bytes[..], FilterScopes(scopes));
    }

    /** One fresh value object per listed setting whose name passes the filter. */
    static method Collect(ss: seq<Setting>, image: seq<Byte>, filter: seq<Scope>) returns (vs: Table<RetroTinkSettingValue>)
      ensures Snapshot(vs) == Pairs(Select(ss, filter), image)
      ensures forall i :: 0 <= i < |vs| ==>
        fresh(vs[i].1) && fresh(vs[i].1.value) && vs[i].0 == vs[i].1.setting.name
    {
      vs := [];
      var k := 0;
      while k < |ss|
        invariant 0 <= k <= |ss|
        invariant |vs| == |Select(ss[..k], filter)|
        invariant forall i :: 0 <= i < |vs| ==>
          fresh(vs[i].1) && fresh(vs[i].1.value) && vs[i].0 == vs[i].1.setting.name
          && vs[i].1.setting == Select(ss[..k], filter)[i]
          && vs[i].1.value[..] == SliceBytes(vs[i].1.setting, image)
      {
        var s := ss[k];
        SelectAt(ss, filter, k);
        if MatchesAnyScope(s.name, filter) {
          var buf := ToArray(SliceBytes(s, image));
          var v := new RetroTinkSettingValue.WithBytes(s, buf);
          vs := vs + [(s.name, v)];
        }
        k := k + 1;
      }
      assert ss[..k] == ss;
    }

    /** The splice loop over one setting's byte ranges. */
    static method SpliceInto(image: seq<Byte>, s: Setting, value: seq<Byte>) returns (r: seq<Byte>)
      ensures r == WriteSetting(image, s, value)
    {
      ghost var target := WriteRanges(image, s.byteRanges, value, 0);
      assert s.byteRanges[0..] == s.byteRanges;
      r := image;
      var offset: nat := 0;
      var k := 0;
      while k < |s.byteRanges|
        invariant 0 <= k <= |s.byteRanges|
        invariant WriteRanges(r, s.byteRanges[k..], value, offset) == target
      {
        r, offset := SpliceRange(r, s.byteRanges, k, value, offset);
        k := k + 1;
      }
      assert s.byteRanges[k..] == [];
    }

    /** One iteration of the splice loop: the `k`th range, and the offset moved past it. */
    static method SpliceRange(r: seq<Byte>, rs: seq<ByteRange>, k: nat, value: seq<Byte>, offset: nat)
      returns (next: seq<Byte>, nextOffset: nat)
      requires k < |rs|
      ensures nextOffset == offset + rs[k].length
      ensures WriteRanges(next, rs[k + 1..], value, nextOffset) == WriteRanges(r, rs[k..], value, offset)
    {
      var br := rs[k];
      next := Splice(r, br.address, br.length, Slice(value, offset, offset + br.length));
      nextOffset := offset + br.length;
      WriteAtNext(r, rs, k, value, offset, next, nextOffset);
    }

    /** `setValue(value)` / `_setValueWithInstance`: the name must be in the schema. */
    method SetValueInstance(sv: RetroTinkSettingValue) returns (err: Option<ProfileError>)
      modifies this
      ensures var r := WriteChecked(old(bytes[..]), (sv.setting, sv.value[..]));
        (r.Ok? ==> err == None && fresh(bytes) && bytes[..] == r.value)
        && (r.Err? ==> err == Some(r.error) && bytes == old(bytes))
    {
      if !Has(Table142, sv.setting.name) {
        return Some(SettingNotSupported(sv.setting.name));
      }
      var image := SpliceInto(bytes[..], sv.setting, sv.value[..]);
      bytes := ToArray(image);
      err := None;
    }

    /** `setValues`: every value in collection order, trusting its descriptor. */
    method SetValues(values: Table<RetroTinkSettingValue>)
      modifies this
      ensures fresh(bytes) && bytes[..] == WriteAll(old(bytes[..]), old(Snapshot(values)))
    {
      ghost var snap := Snapshot(values);
      var image := bytes[..];
      ghost var target := WriteAll(image, snap);
      var k := 0;
      while k < |values|
        invariant 0 <= k <= |values|
        invariant WriteAll(image, snap[k..]) == target
      {
        var sv := values[k].1;
        WriteAllAt(image, snap, k);
        image := SpliceInto(image, sv.setting, sv.value[..]);
        k := k + 1;
      }
      assert snap[k..] == [];
      bytes := ToArray(image);
    }

    /** `setValue(name, primitive)` / `_setValueWithPrimitive`. */
    method SetValuePrimitive(key: string, val: JsPrimitive) returns (err: Option<ProfileError>)
      modifies this
      ensures var r := SetPrimitive(old(bytes[..]), key, val);
        (r.Ok? ==> err == None && fresh(bytes) && bytes[..] == r.value)
        && (r.Err? ==> err == Some(r.error) && bytes == old(bytes))
    {
      if !Has(Table142, key) {
        return Some(SettingNotSupported(key));
      }
      var found := GetValue(key);
      var sv := found.value;
      var e := sv.Set(val);
      if e.Some? {
        return e;
      }
      err := SetValueInstance(sv);
    }

    /** `setValue(object)`: the flattened pairs in order, stopping at the first error. */
    method SetValueObject(pairs: seq<(string, JsPrimitive)>) returns (err: Option<ProfileError>)
      modifies this
      ensures bytes == old(bytes) || fresh(bytes)
      ensures var w := ApplyPairs(old(bytes[..]), pairs);
        bytes[..] == w.value && err == w.error
    {
      ghost var target := ApplyPairs(bytes[..], pairs);
      var k := 0;
      while k < |pairs|
        invariant 0 <= k <= |pairs|
        invariant bytes == old(bytes) || fresh(bytes)
        invariant ApplyPairs(bytes[..], pairs[k..]) == target
      {
        err := SetPairAt(pairs, k);
        if err.Some? {
          return;
        }
        k := k + 1;
      }
      err := None;
    }

    /** One iteration of `setValue(object)`: the `k`th pair, then what the rest of the pairs make of it. */
    method SetPairAt(pairs: seq<(string, JsPrimitive)>, k: nat) returns (err: Option<ProfileError>)
      requires k < |pairs|
      modifies this
      ensures bytes == old(bytes) || fresh(bytes)
      ensures var w := ApplyPairs(old(bytes[..]), pairs[k..]);
        if err.Some? then bytes[..] == w.value && err == w.error
        else ApplyPairs(bytes[..], pairs[k + 1..]) == w
    {
      ApplyPairsAt(bytes[..], pairs, k);
      err := SetValuePrimitive(pairs[k].0, pairs[k].1);
    }

    /**
     * `deserializeValues`: the parsed and flattened document, or the parse error; any
     * failure comes out wrapped in a SettingDeserializationError.
     */
    method DeserializeValues(parsed: Result<seq<(string, JsPrimitive)>>) returns (err: Option<ProfileError>)
      modifies this
      ensures bytes == old(bytes) || fresh(bytes)
      ensures parsed.Err? ==> err == Some(SettingDeserialization(parsed.error)) && bytes == old(bytes)
      ensures parsed.Ok? ==> var w := ApplyPairs(old(bytes[..]), parsed.value);
        bytes[..] == w.value
        && (w.error.None? ==> err == None)
        && (w.error.Some? ==> err == Some(SettingDeserialization(w.error.value)))
    {
      if parsed.Err? {
        return Some(SettingDeserialization(parsed.error));
      }
      var e := SetValueObject(parsed.value);
      if e.Some? {
        return Some(SettingDeserialization(e.value));
      }
      err := None;
    }

    /** `clone`: a new profile over the SAME buffer. */
    method Clone() returns (r: RetroTinkProfile)
      ensures fresh(r) && r.bytes == bytes
    {
      r := new RetroTinkProfile(bytes);
    }

    /** `mergeAllSettings`: every schema value of the source, written with the name check. */
    static method MergeAllSettings(target: RetroTinkProfile, source: RetroTinkProfile) returns (err: Option<ProfileError>)
      requires target != source
      modifies target
      ensures target.bytes == old(target.bytes) || fresh(target.bytes)
      ensures var w := WriteEach(old(target.bytes[..]), ValuesOf([], old(source.bytes[..])));
        target.bytes[..] == w.value && err == w.error
    {
      var vs := source.GetValues([]);
      err := target.WriteValues(vs);
    }

    /** `mergeSettingsValues`: each value of the collection, written with the name check. */
    method WriteValues(vs: Table<RetroTinkSettingValue>) returns (err: Option<ProfileError>)
      modifies this
      ensures bytes == old(bytes) || fresh(bytes)
      ensures var w := WriteEach(old(bytes[..]), old(Snapshot(vs)));
        bytes[..] == w.value && err == w.error
    {
      ghost var snap := Snapshot(vs);
      ghost var target := WriteEach(bytes[..], snap);
      var k := 0;
      while k < |vs|
        invariant 0 <= k <= |vs|
        invariant bytes == old(bytes) || fresh(bytes)
        invariant Snapshot(vs) == snap
        invariant WriteEach(bytes[..], snap[k..]) == target
      {
        err := WriteValueAt(vs, k);
        if err.Some? {
          return;
        }
        k := k + 1;
      }
      err := None;
    }

    /** One iteration of `mergeSettingsValues`: the `k`th value, then what the rest make of it. */
    method WriteValueAt(vs: Table<RetroTinkSettingValue>, k: nat) returns (err: Option<ProfileError>)
      requires k < |vs|
      modifies this
      ensures bytes == old(bytes) || fresh(bytes)
      ensures Snapshot(vs) == old(Snapshot(vs))
      ensures var w := WriteEach(old(bytes[..]), old(Snapshot(vs))[k..]);
        if err.Some? then bytes[..] == w.value && err == w.error
        else WriteEach(bytes[..], old(Snapshot(vs))[k + 1..]) == w
    {
      WriteEachAt(bytes[..], Snapshot(vs), k);
      err := SetValueInstance(vs[k].1);
    }

    /** One source of `merge`, written into the target. */
    static method MergeSource(target: RetroTinkProfile, src: Source) returns (err: Option<ProfileError>)
      requires target !in Members(src)
      modifies target
      ensures target.bytes == old(target.bytes) || fresh(target.bytes)
      ensures var w := MergeStep(old(target.bytes[..]), old(Data(src)));
        target.bytes[..] == w.value && err == w.error
    {
      match src {
        case FromProfile(p) =>
          err := MergeAllSettings(target, p);
        case FromValues(t) =>
          err := target.WriteValues(t);
        case FromValue(v) =>
          err := target.SetValueInstance(v);
          WriteEachSingle(old(target.bytes[..]), (v.setting, v.value[..]));
        case FromObject(pairs) =>
          err := target.SetValueObject(pairs);
      }
    }

    /** `merge`: the sources applied left to right to a clone; this profile is not changed. */
    method Merge(sources: seq<Source>) returns (r: Result<RetroTinkProfile>)
      ensures var w := MergeAll(old(bytes[..]), old(AllData(sources)));
        (w.error.None? ==>
           r.Ok? && fresh(r.value)
           && (r.value.bytes == bytes || fresh(r.value.bytes)) && r.value.bytes[..] == w.value)
        && (w.error.Some? ==> r == Err(w.error.value))
    {
      ghost var ds := AllData(sources);
      var np := Clone();
      assert forall i :: 0 <= i < |sources| ==> Data(sources[i]) == ds[i];
      assert AllData(sources) == ds;
      var err := ApplySources(np, sources, ds);
      if err.Some? {
        return Err(err.value);
      }
      return Ok(np);
    }

    /** The loop of `merge` over its sources, writing into the clone. */
    static method ApplySources(target: RetroTinkProfile, sources: seq<Source>, ghost ds: seq<SourceData>)
      returns (err: Option<ProfileError>)
      requires forall i :: 0 <= i < |sources| ==> target !in Members(sources[i])
      requires ds == AllData(sources)
      modifies target
      ensures target.bytes == old(target.bytes) || fresh(target.bytes)
      ensures var w := MergeAll(old(target.bytes[..]), ds);
        target.bytes[..] == w.value && err == w.error
    {
      ghost var goal := MergeAll(target.bytes[..], ds);
      var k := 0;
      while k < |sources|
        invariant 0 <= k <= |sources|
        invariant target.bytes == old(target.bytes) || fresh(target.bytes)
        invariant MergeAll(target.bytes[..], ds[k..]) == goal
        invariant forall i :: k <= i < |sources| ==> Data(sources[i]) == ds[i]
      {
        err := ApplySourceAt(target, sources, k, ds);
        if err.Some? {
          return;
        }
        k := k + 1;
      }
      assert ds[k..] == [];
      err := None;
    }

    /** One iteration of `merge`'s loop: the `k`th source, then what the rest make of it. */
    static method ApplySourceAt(target: RetroTinkProfile, sources: seq<Source>, k: nat, ghost ds: seq<SourceData>)
      returns (err: Option<ProfileError>)
      requires k < |sources| && k < |ds| && ds[k] == Data(sources[k]) && target !in Members(sources[k])
      requires forall i :: k < i < |sources| ==> target !in Members(sources[i])
      modifies target
      ensures target.bytes == old(target.bytes) || fresh(target.bytes)
      ensures forall i :: k < i < |sources| ==> Data(sources[i]) == old(Data(sources[i]))
      ensures var w := MergeAll(old(target.bytes[..]), ds[k..]);
        if err.Some? then target.bytes[..] == w.value && err == w.error
        else MergeAll(target.bytes[..], ds[k + 1..]) == w
    {
      MergeAllAt(target.bytes[..], ds, k);
      err := MergeSource(target, sources[k]);
    }

    /** `_getCrc`: the CRC of the image from byte 128, as two bytes, low first. */
    function GetCrc(crc16: (seq<Byte>, nat) -> int): (r: seq<Byte>)
      reads this, bytes
      ensures |r| == 2 && r[1] as int * 256 + r[0] as int == crc16(bytes[..], CrcStartIndex) % 0x1_0000
    {
      CrcBytes(crc16(bytes[..], CrcStartIndex))
    }

    /** `_writeCrc`: the two bytes written in place at 32; a buffer too short is a RangeError. */
    method WriteCrc(crc16: (seq<Byte>, nat) -> int) returns (o: Outcome)
      modifies bytes
      ensures bytes.Length < CrcWriteIndex + 2 ==> o == Fail(RangeError) && bytes[..] == old(bytes[..])
      ensures CrcWriteIndex + 2 <= bytes.Length ==>
        o == Pass && bytes[..] == WithCrc(old(bytes[..]), crc16(old(bytes[..]), CrcStartIndex))
    {
      var crc := GetCrc(crc16);
      if bytes.Length < CrcWriteIndex + 2 {
        return Fail(RangeError);
      }
      bytes[CrcWriteIndex] := crc[0];
      bytes[CrcWriteIndex + 1] := crc[1];
      o := Pass;
    }

    /** `save`: write the CRC, then hand the buffer to the file writer. */
    method Save(crc16: (seq<Byte>, nat) -> int) returns (o: Outcome, written: Option<seq<Byte>>)
      modifies bytes
      ensures o == Pass <==> CrcWriteIndex + 2 <= bytes.Length
      ensures o == Pass ==>
        written == Some(bytes[..])
        && bytes[..] == WithCrc(old(bytes[..]), crc16(old(bytes[..]), CrcStartIndex))
      ensures o != Pass ==> o == Fail(RangeError) && written == None && bytes[..] == old(bytes[..])
    {
      o := WriteCrc(crc16);
      if o == Pass {
        written := Some(bytes[..]);
      } else {
        written := None;
      }
    }

    /** `getCrcString`. */
    function GetCrcString(crc16: (seq<Byte>, nat) -> int): (r: string)
      reads this, bytes
      ensures |r| == 6 && r[..2] == "0x"
      ensures forall i :: 2 <= i < 6 ==> JsText.IsHexDigit(r[i])
      ensures JsText.HexValue(r[2..]) == crc16(bytes[..], CrcStartIndex) % 0x1_0000
    {
      CrcString(crc16(bytes[..], CrcStartIndex))
    }
  }
}
