/** The download priorities the script hands to the engine for the chosen file: a priority per
    file, and the two pieces holding the file's first and last bytes raised to the top level
    (stream_torrent.py:69-99). */
module Priorities {
  import opened Catalog

  /** libtorrent's download_priority.dont_download. */
  const DontDownload: int := 0
  /** libtorrent's download_priority.top_priority. */
  const TopPriority: int := 7

  /** 2^53: below it every integer is exactly a double. */
  const ExactFloatLimit: nat := 0x20_0000_0000_0000

  /** [dont_download] * fileCount with the chosen file's entry then set to top_priority. */
  function PriorityVector(fileCount: nat, chosen: nat): (levels: seq<int>)
    requires chosen < fileCount
    ensures |levels| == fileCount
    ensures levels[chosen] == TopPriority
    ensures forall i :: 0 <= i < fileCount && i != chosen ==> levels[i] == DontDownload
  {
    seq(fileCount, _ => DontDownload)[chosen := TopPriority]
  }

  /** The priorities list of stream_torrent.py:74-76, built and then updated in place. */
  method FilePriorities(fileCount: nat, chosen: nat) returns (priorities: array<int>)
    requires chosen < fileCount
    ensures fresh(priorities)
    ensures priorities.Length == fileCount
    ensures priorities[chosen] == TopPriority
    ensures forall i :: 0 <= i < fileCount && i != chosen ==> priorities[i] == DontDownload
    ensures priorities[..] == PriorityVector(fileCount, chosen)
  {
    priorities := new int[fileCount](_ => DontDownload);
    priorities[chosen] := TopPriority;
  }

  /** Python's int(a / b) for b > 0: the quotient is rounded toward zero. It agrees with a
      double division when a + b <= 2^53, where the rounded quotient cannot reach the next
      integer. */
  function TruncDiv(a: int, b: nat): (q: int)
    requires b > 0
    ensures a >= 0 ==> q >= 0 && q * b <= a < q * b + b
    ensures a < 0 ==> q * b - b < a <= q * b
  {
    if a >= 0 then DivBounds(a, b); a / b else DivBounds(-a, b); -((-a) / b)
  }

  /** Euclidean division of a natural number: the quotient times b is within b of a. */
  lemma DivBounds(a: nat, b: nat)
    requires b > 0
    ensures a / b >= 0 && (a / b) * b <= a < (a / b) * b + b
  {
    assert a == (a / b) * b + a % b;
  }

  /** The piece holding the file's first byte: int(file_offset / piece_length). */
  function StartPiece(offset: nat, pieceLength: nat): (p: nat)
    requires pieceLength > 0 && offset + pieceLength <= ExactFloatLimit
    ensures p * pieceLength <= offset < p * pieceLength + pieceLength
  {
    TruncDiv(offset, pieceLength)
  }

  /** The piece holding the file's last byte: int((file_offset + file_size - 1) / piece_length).
      For an empty file at offset 0 the quotient -1 / piece_length truncates to piece 0. */
  function EndPiece(offset: nat, size: nat, pieceLength: nat): (p: int)
    requires pieceLength > 0 && offset + size + pieceLength <= ExactFloatLimit
    ensures size > 0 ==> p * pieceLength <= offset + size - 1 < p * pieceLength + pieceLength
    ensures size == 0 && offset == 0 ==> p == if pieceLength == 1 then -1 else 0
  {
    TruncDiv(offset + size - 1, pieceLength)
  }

  /** A non-empty file starts no later than it ends, and both raised pieces overlap the bytes
      [offset, offset + size) of the file. */
  lemma PieceSpan(offset: nat, size: nat, pieceLength: nat)
    requires pieceLength > 0 && offset + size + pieceLength <= ExactFloatLimit
    requires size > 0
    ensures StartPiece(offset, pieceLength) <= EndPiece(offset, size, pieceLength)
    ensures Overlaps(StartPiece(offset, pieceLength), pieceLength, offset, size)
    ensures Overlaps(EndPiece(offset, size, pieceLength), pieceLength, offset, size)
  {
    var s, e := StartPiece(offset, pieceLength), EndPiece(offset, size, pieceLength);
    assert s * pieceLength < (e + 1) * pieceLength;
    MulCancel(s, e + 1, pieceLength);
  }

  lemma MulMonotone(a: int, b: int, c: nat)
    requires a <= b
    ensures a * c <= b * c
  {
  }

  lemma MulCancel(a: int, b: int, c: nat)
    requires a * c < b * c
    ensures a < b
  {
    if a >= b {
      MulMonotone(b, a, c);
    }
  }

  /** Piece p (bytes [p * L, p * L + L)) shares a byte with the file's bytes [offset, offset + size). */
  predicate Overlaps(p: int, pieceLength: nat, offset: nat, size: nat)
  {
    p * pieceLength < offset + size && offset < p * pieceLength + pieceLength
  }

  /** An empty file that starts on a piece boundary past the first piece gets the piece before
      its start as its end piece: that piece belongs to the preceding bytes of the torrent. */
  lemma EmptyFileEndPiece(k: nat, pieceLength: nat)
    requires pieceLength > 0 && k > 0 && k * pieceLength + pieceLength <= ExactFloatLimit
    ensures StartPiece(k * pieceLength, pieceLength) == k
    ensures EndPiece(k * pieceLength, 0, pieceLength) == k - 1
  {
    var s := StartPiece(k * pieceLength, pieceLength);
    if s < k {
      MulMonotone(s + 1, k, pieceLength);
    } else if s > k {
      MulMonotone(k + 1, s, pieceLength);
    }
    var e := EndPiece(k * pieceLength, 0, pieceLength);
    if e < k - 1 {
      MulMonotone(e + 1, k - 1, pieceLength);
    } else if e > k - 1 {
      MulMonotone(k, e, pieceLength);
    }
  }

  /** With 16 MiB pieces, a 50 MiB file at offset 100 MiB spans pieces 6 to 9. */
  lemma PieceExample()
    ensures StartPiece(100 * 0x10_0000, 16 * 0x10_0000) == 6
    ensures EndPiece(100 * 0x10_0000, 50 * 0x10_0000, 16 * 0x10_0000) == 9
  {
  }

  /** One instruction to the download engine. */
  datatype Directive = SetFilePriorities(levels: seq<int>) | SetPiecePriority(piece: int, level: int)

  /** The instructions of stream_torrent.py:74-99 for the file at index chosen, in order: the
      file priorities, under which the chosen file is the only one downloaded, then two pieces
      raised to the top level. */
  function Plan(files: seq<FileEntry>, chosen: nat, pieceLength: nat): (d: seq<Directive>)
    requires chosen < |files| && pieceLength > 0
    requires files[chosen].offset + files[chosen].size + pieceLength <= ExactFloatLimit
    ensures |d| == 3 && d[0].SetFilePriorities? && |d[0].levels| == |files|
    ensures forall i :: 0 <= i < |files| ==> (d[0].levels[i] != DontDownload <==> i == chosen)
    ensures d[0].levels[chosen] == TopPriority
    ensures forall k :: 1 <= k < 3 ==> d[k].SetPiecePriority? && d[k].level == TopPriority
    // the first raised piece holds the file's first byte, the second its last byte
    ensures d[1].piece * pieceLength <= files[chosen].offset < d[1].piece * pieceLength + pieceLength
    ensures files[chosen].size > 0 ==>
      d[2].piece * pieceLength <= files[chosen].offset + files[chosen].size - 1 < d[2].piece * pieceLength + pieceLength
  {
    var f := files[chosen];
    [ SetFilePriorities(PriorityVector(|files|, chosen)),
      SetPiecePriority(StartPiece(f.offset, pieceLength), TopPriority),
      SetPiecePriority(EndPiece(f.offset, f.size, pieceLength), TopPriority) ]
  }

  /** The plan raises exactly the two pieces holding the chosen file's first and last bytes,
      both of which overlap the file when it is not empty. */
  lemma PlanRaisesBoundaryPieces(files: seq<FileEntry>, chosen: nat, pieceLength: nat, p: int)
    requires chosen < |files| && pieceLength > 0
    requires files[chosen].offset + files[chosen].size + pieceLength <= ExactFloatLimit
    ensures SetPiecePriority(p, TopPriority) in Plan(files, chosen, pieceLength) <==>
      || p == StartPiece(files[chosen].offset, pieceLength)
      || p == EndPiece(files[chosen].offset, files[chosen].size, pieceLength)
    ensures SetPiecePriority(p, TopPriority) in Plan(files, chosen, pieceLength) && files[chosen].size > 0 ==>
      Overlaps(p, pieceLength, files[chosen].offset, files[chosen].size)
  {
    var d := Plan(files, chosen, pieceLength);
    assert d[1] == SetPiecePriority(StartPiece(files[chosen].offset, pieceLength), TopPriority);
    assert d[2] == SetPiecePriority(EndPiece(files[chosen].offset, files[chosen].size, pieceLength), TopPriority);
    if files[chosen].size > 0 {
      PieceSpan(files[chosen].offset, files[chosen].size, pieceLength);
    }
  }
}
