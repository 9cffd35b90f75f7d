/** Cumulative rows built from symbol counts, and what they guarantee the range
    encoder. */
module FrequencyTables {
  import opened Division
  import opened Sums
  import opened Words
  import opened RangeInterval
  import T = RangeRoundTrip

  lemma {:induction false} SumGrows(counts: seq<u32>, i: nat, j: nat)
    requires i <= j <= |counts|
    ensures Sum(counts[..i]) <= Sum(counts[..j])
  {
    if i < j {
      SumGrows(counts, i, j - 1);
      assert counts[..j][..j - 1] == counts[..j - 1];
    }
  }

  lemma SumNext(counts: seq<u32>, i: nat)
    requires i < |counts|
    ensures Sum(counts[..i + 1]) == Sum(counts[..i]) + counts[i]
  {
    assert counts[..i + 1][..i] == counts[..i];
  }

  /** The product wraps at 64 bits and the quotient is cut to 32. */
  function Entry(accum: nat, total: nat): u32
    requires total > 0
  {
    accum * 0xffff_ffff % 0x1_0000_0000_0000_0000 / total % 0x1_0000_0000
  }

  function CumulativeRow(counts: seq<u32>): (row: seq<u32>)
    requires Sum(counts) > 0
    ensures |row| == |counts|
  {
    seq(|counts|, i requires 0 <= i < |counts| => Entry(Sum(counts[..i + 1]), Sum(counts)))
  }

  method BuildCumulativeRowFromCounts(counts: seq<u32>) returns (row: seq<u32>)
    requires |counts| == 256
    ensures Sum(counts) > 0 ==> row == CumulativeRow(counts)
    ensures Sum(counts) == 0 ==> |row| == 256 && forall i :: 0 <= i < 256 ==> row[i] == MAX_U32
  {
    var total: nat := 0;
    for i := 0 to 256
      invariant total == Sum(counts[..i])
    {
      SumNext(counts, i);
      total := total + counts[i];
    }
    assert counts[..256] == counts;
    row := [];
    if total == 0 {
      for i := 0 to 256
        invariant |row| == i && forall k :: 0 <= k < i ==> row[k] == MAX_U32
      {
        row := row + [MAX_U32];
      }
      return;
    }
    row := Accumulate(counts, total);
  }

  /** The accumulation loop of both the single and the paired builder. */
  method Accumulate(counts: seq<u32>, total: nat) returns (row: seq<u32>)
    requires total == Sum(counts) > 0
    ensures row == CumulativeRow(counts)
  {
    row := [];
    var accum: nat := 0;
    for i := 0 to |counts|
      invariant accum == Sum(counts[..i])
      invariant |row| == i && forall k :: 0 <= k < i ==> row[k] == CumulativeRow(counts)[k]
    {
      SumNext(counts, i);
      accum := accum + counts[i];
      row := row + [Entry(accum, total)];
    }
  }

  /** Two raw rows become the consecutive halves of one distribution. A total of
      zero is a division by zero in the source. */
  method BuildPairedCumulativeRows(raw0: seq<u32>, raw1: seq<u32>) returns (row0: seq<u32>, row1: seq<u32>)
    requires |raw0| == |raw1| == 256 && Sum(raw0 + raw1) > 0
    ensures |row0| == |row1| == 256 && row0 + row1 == CumulativeRow(raw0 + raw1)
  {
    var pair := raw0 + raw1;
    var total: nat := 0;
    for i := 0 to 512
      invariant total == Sum(pair[..i])
    {
      SumNext(pair, i);
      total := total + pair[i];
    }
    assert pair[..512] == pair;
    var row := Accumulate(pair, total);
    row0, row1 := row[..256], row[256..];
  }

  /** Within 64 bits nothing wraps, neither product nor quotient. */
  lemma EntryIsExact(accum: nat, total: nat)
    requires accum <= total && 0 < total <= 0x1_0000_0001
    ensures Entry(accum, total) == accum * 0xffff_ffff / total
    ensures accum == total ==> Entry(accum, total) == MAX_U32
  {
    QuotientGrows(accum * 0xffff_ffff, 0xffff_ffff * total, total);
    QuotientExact(0xffff_ffff, total);
  }

  /** One count more, and the last entry is no longer the greatest; with twice as many
      it is half of that. */
  lemma LargeTotalsWrap()
    ensures Entry(0x1_0000_0002, 0x1_0000_0002) == 0
    ensures Entry(0x2_0000_0000, 0x2_0000_0000) == 0x7fff_ffff
  {
    assert 0x1_0000_0002 * 0xffff_ffff == 0x1_0000_0000_0000_0000 + 0xffff_fffe;
    assert 0x2_0000_0000 * 0xffff_ffff == 0x1_0000_0000_0000_0000 + 0x2_0000_0000 * 0x7fff_ffff;
  }

  /** The least width of a symbol counted `c` times. */
  function LeastGap(c: nat, total: nat): nat
    requires total > 0
  {
    c * 0xffff_ffff / total
  }

  lemma LeastGapGrows(a: nat, b: nat, total: nat)
    requires a <= b && total > 0
    ensures LeastGap(a, total) <= LeastGap(b, total)
  {
    QuotientGrows(a * 0xffff_ffff, b * 0xffff_ffff, total);
  }

  /** A single occurrence has a width of at least 1 when the total fits 32 bits,
      and of at least 256 when it fits 24. */
  lemma LeastGapOfOne(total: nat)
    requires 0 < total < 0x1_0000_0000
    ensures LeastGap(1, total) >= 1
    ensures total < 0x100_0000 ==> LeastGap(1, total) >= 0x100
  {
    QuotientAtLeast(1, 0xffff_ffff, total);
    QuotientAtLeast(0x100, 0xffff_ffff, total);
  }

  lemma EntryGap(accum: nat, c: nat, total: nat)
    requires accum + c <= total && 0 < total <= 0x1_0000_0001
    ensures Entry(accum + c, total) >= Entry(accum, total) + LeastGap(c, total)
  {
    hide Entry;
    EntryIsExact(accum, total);
    EntryIsExact(accum + c, total);
    QuotientSum(accum * 0xffff_ffff, c * 0xffff_ffff, total);
  }

  lemma RowEntry(counts: seq<u32>, i: nat)
    requires Sum(counts) > 0 && i < |counts|
    ensures CumulativeRow(counts)[i] == Entry(Sum(counts[..i + 1]), Sum(counts))
  {
  }

  lemma RowGrows(counts: seq<u32>, i: nat, j: nat)
    requires 0 < Sum(counts) <= 0x1_0000_0001 && i <= j < |counts|
    ensures CumulativeRow(counts)[i] <= CumulativeRow(counts)[j]
  {
    hide Entry, LeastGap, Sum, CumulativeRow;
    assert counts[..|counts|] == counts;
    SumGrows(counts, i + 1, j + 1);
    SumGrows(counts, j + 1, |counts|);
    RowEntry(counts, i);
    RowEntry(counts, j);
    EntryGap(Sum(counts[..i + 1]), Sum(counts[..j + 1]) - Sum(counts[..i + 1]), Sum(counts));
  }

  /** Rows are non-decreasing and end at 2^32 - 1, for every total that the 64-bit
      product can carry. */
  lemma RowIsMonotone(counts: seq<u32>)
    requires 0 < Sum(counts) <= 0x1_0000_0001
    ensures Monotone(CumulativeRow(counts))
    ensures counts != [] && CumulativeRow(counts)[|counts| - 1] == MAX_U32
  {
    hide Entry, CumulativeRow;
    forall i, j | 0 <= i < j < |counts|
      ensures CumulativeRow(counts)[i] <= CumulativeRow(counts)[j]
    {
      RowGrows(counts, i, j);
    }
    assert counts[..|counts|] == counts;
    RowEntry(counts, |counts| - 1);
    EntryIsExact(Sum(counts), Sum(counts));
  }

  /** The gap of a symbol in its row. */
  lemma SymbolGap(counts: seq<u32>, i: nat)
    requires 0 < Sum(counts) <= 0x1_0000_0001 && i < |counts|
    ensures CumulativeRow(counts)[i] >= Lower(CumulativeRow(counts), i) + LeastGap(counts[i], Sum(counts))
  {
    hide Entry, LeastGap, CumulativeRow;
    assert counts[..|counts|] == counts;
    SumNext(counts, i);
    SumGrows(counts, i + 1, |counts|);
    RowEntry(counts, i);
    EntryGap(Sum(counts[..i]), counts[i], Sum(counts));
    if i > 0 {
      RowEntry(counts, i - 1);
    }
  }

  /** A positive count gets a positive gap when the total fits 32 bits, and a gap
      of 256 when it fits 24. */
  lemma PositiveGap(counts: seq<u32>, i: nat)
    requires 0 < Sum(counts) < 0x1_0000_0000 && i < |counts| && counts[i] > 0
    ensures Lower(CumulativeRow(counts), i) < CumulativeRow(counts)[i]
    ensures Sum(counts) < 0x100_0000 ==> CumulativeRow(counts)[i] - Lower(CumulativeRow(counts), i) >= 0x100
  {
    hide CumulativeRow, Sum, LeastGap;
    SymbolGap(counts, i);
    LeastGapGrows(1, counts[i], Sum(counts));
    LeastGapOfOne(Sum(counts));
  }

  /** A gap of 256 is never empty in a renormalised range. */
  lemma WideGapAccepted(s: Interval, row: seq<u32>, sym: nat)
    requires s.range >= 0x100_0000 && sym < |row|
    requires row[sym] - Lower(row, sym) >= 0x100
    ensures Accepts(s, row, sym)
  {
    WideGap(Lower(row, sym), row[sym] - Lower(row, sym), s.range);
  }

  lemma WideGap(lower: nat, gap: nat, range: nat)
    requires gap >= 0x100 && range >= 0x100_0000
    ensures lower * range / 0x1_0000_0000 < (lower + gap) * range / 0x1_0000_0000
  {
    assert gap * range >= 0x100 * range;
    assert (lower + gap) * range == lower * range + gap * range;
    QuotientAtLeast(1, gap * range, 0x1_0000_0000);
    QuotientSum(lower * range, gap * range, 0x1_0000_0000);
  }

  /** The distribution that coded an item came from counts in which its symbol
      occurs, with a total below 2^24. */
  predicate FromCounts(item: T.Item, counts: seq<u32>) {
    && 0 < Sum(counts) < 0x100_0000
    && item.model.Row() == CumulativeRow(counts)
    && item.symbol < |counts| && counts[item.symbol] > 0
  }

  predicate AllFromCounts(items: seq<T.Item>, counts: seq<seq<u32>>) {
    |items| == |counts| && forall i :: 0 <= i < |items| ==> FromCounts(items[i], counts[i])
  }

  /** The symbol of every item has a gap of at least 256 in its row. */
  predicate WideGaps(items: seq<T.Item>) {
    forall i :: 0 <= i < |items| ==>
      && items[i].symbol < |items[i].model.Row()|
      && items[i].model.Row()[items[i].symbol] - Lower(items[i].model.Row(), items[i].symbol) >= 0x100
  }

  /** With such gaps, in whatever rows, no encode call of any run fails. */
  lemma {:induction false} WideGapsAccepted(items: seq<T.Item>)
    requires WideGaps(items)
    ensures T.AcceptsAll(items)
  {
    if items != [] {
      var n := |items| - 1;
      WideGapsAccepted(items[..n]);
      WideGapAccepted(T.Run(items[..n]), items[n].model.Row(), items[n].symbol);
    }
  }

  /** Rows built from counts have them. */
  lemma NeverRefused(items: seq<T.Item>, counts: seq<seq<u32>>)
    requires AllFromCounts(items, counts)
    ensures T.AcceptsAll(items)
  {
    hide T.AcceptsAll, CumulativeRow;
    forall i | 0 <= i < |items|
      ensures items[i].symbol < |items[i].model.Row()|
      ensures items[i].model.Row()[items[i].symbol] - Lower(items[i].model.Row(), items[i].symbol) >= 0x100
    {
      assert FromCounts(items[i], counts[i]);
      PositiveGap(counts[i], items[i].symbol);
    }
    WideGapsAccepted(items);
  }
}
