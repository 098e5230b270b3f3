/**
 How long the output files of a compaction are, compared with the target size.
 */
module TargetSize {
  import opened Records
  import opened Merging
  import opened SsTable
  import opened SsTableSize
  import opened SsTableRoundTrip
  import opened Formats

  /** What a file has besides its records. */
  function Overhead(format: Format, rs: seq<Record>): nat
  {
    HEADER_SIZE + IndexLength(Packed([], rs, format.blockSize))
    + 8 + 8 * |FilterFor(rs, format.sizing).bits| + FOOTER_SIZE
  }

  lemma FileIsLonger(format: Format, rs: seq<Record>)
    ensures |format.FileOf(rs)| == SizeOf(rs) + Overhead(format, rs) && Overhead(format, rs) >= 48
  {
    hide SsTable.FileOf, FilterFor, IndexLength, Packed, SizeOf;
    FileLength(rs, format.blockSize, FilterFor(rs, format.sizing));
  }

  /** An output file passes the target by less than its last record and its overhead, if it passes it. */
  lemma OutputFileBound(format: Format, rs: seq<Record>, target: nat, i: nat)
    requires i < |Cut([], rs, target)|
    ensures var piece := Cut([], rs, target)[i];
            && piece != []
            && (|| |piece| == 1
                || |format.FileOf(piece)| < target + RecordSize(piece[|piece| - 1]) + Overhead(format, piece))
  {
    hide Overhead, Format.FileOf, Cut;
    var pieces := Cut([], rs, target);
    CutPieces([], rs, target);
    assert pieces[i] in pieces;
    FileIsLonger(format, pieces[i]);
    if |pieces[i]| > 1 {
      SizeOfLast(pieces[i]);
    }
  }

  lemma SizeOfLast(rs: seq<Record>)
    requires rs != []
    ensures SizeOf(rs) == SizeOf(rs[..|rs| - 1]) + RecordSize(rs[|rs| - 1])
  {
  }

  /** Every output file but the last is longer than the target. */
  lemma FullFileIsOverTarget(format: Format, rs: seq<Record>, target: nat, i: nat)
    requires i < |Cut([], rs, target)| - 1
    ensures |format.FileOf(Cut([], rs, target)[i])| > target
  {
    hide Overhead, Format.FileOf, Cut, SizeOf;
    CutPieces([], rs, target);
    FileIsLonger(format, Cut([], rs, target)[i]);
  }

  /** No output file passes the target exactly when everything fits into one that does not. */
  lemma WithinTargetIff(format: Format, rs: seq<Record>, target: nat)
    ensures (forall piece | piece in Cut([], rs, target) :: |format.FileOf(piece)| <= target)
            <==> rs == [] || |format.FileOf(rs)| <= target
  {
    hide Overhead, Format.FileOf, Cut, SizeOf;
    var pieces := Cut([], rs, target);
    CutFlat([], rs, target);
    assert [] + rs == rs;
    FileIsLonger(format, rs);
    if |pieces| > 1 {
      FullFileIsOverTarget(format, rs, target, 0);
      assert pieces[0] in pieces;
      if rs != [] && |format.FileOf(rs)| <= target {
        OnePiece([], rs, target);
      }
    } else if |pieces| == 1 {
      assert pieces == [pieces[0]];
      FlatOfOne(pieces[0]);
    }
    if rs == [] {
      NoPieces(target);
    }
  }

  lemma NoPieces(target: nat)
    ensures Cut([], [], target) == []
  {
  }

  /** One record as large as the target makes a file that passes it. */
  lemma LargeRecordPassesTarget(format: Format, r: Record, target: nat)
    requires RecordSize(r) >= target
    ensures Cut([], [r], target) == [[r]] && |format.FileOf([r])| > target
  {
    hide Overhead, Format.FileOf;
    assert [] + [r] == [r] && [r][1..] == [];
    SizeOfOne(r);
    FileIsLonger(format, [r]);
    NoPieces(target);
  }
}
