/** The splat PLY reader of `read_custom_ply`: skip the text header, then cut
    the binary body into 56-byte vertex records of fourteen little-endian
    32-bit floats and scatter them into five flat attribute lists.

    A float is kept as the opaque 4-byte `Word` it is stored as: only lengths,
    order and the split of each record into fields matter here. */
module Ply {
  import opened Wrappers
  import opened Text
  import opened Seqs

  const NEWLINE: byte := 10
  const END_HEADER: string := "end_header"

  /** Values per vertex record (the `<14f` format). */
  const VALUES_PER_RECORD: nat := 14
  /** Bytes per `f` value. */
  const WORD_SIZE: nat := 4
  /** `struct.calcsize("<14f")`. */
  const RECORD_SIZE: nat := 56

  type Line = seq<byte>

  /** One stored float: its four bytes, least significant first. */
  datatype Word = Word(b0: byte, b1: byte, b2: byte, b3: byte)

  type Record = seq<Word>

  /** The five attribute lists and the vertex count returned by the reader. */
  datatype PlyData = PlyData(
    xyz: seq<Word>,
    fDc: seq<Word>,
    opacity: seq<Word>,
    scale: seq<Word>,
    rot: seq<Word>,
    count: nat)

  datatype PlyError =
    | HeaderNotAscii              // `decode("ascii")` raises on a header line
    | TrailingBytes(extra: nat)   // `struct.iter_unpack` raises: the body is not whole records

  // ---------------------------------------------------------------------------
  // Lines, as successive `readline()` calls return them

  /** The length of the first line of non-empty `data`: up to and including the
      first newline, or all of `data` when it has none. */
  function LineEnd(data: seq<byte>): (n: nat)
    requires |data| > 0
    ensures 0 < n <= |data|
  {
    if data[0] == NEWLINE || |data| == 1 then 1 else 1 + LineEnd(data[1..])
  }

  /** What `readline()` can return: a non-empty run of bytes with no newline
      but possibly the last one. */
  predicate IsLine(line: Line) {
    |line| > 0 && forall j | 0 <= j < |line| - 1 :: line[j] != NEWLINE
  }

  /** Every line but the last ends with its newline. */
  predicate WellSplit(lines: seq<Line>) {
    && (forall i | 0 <= i < |lines| :: IsLine(lines[i]))
    && (forall i | 0 <= i < |lines| - 1 :: lines[i][|lines[i]| - 1] == NEWLINE)
  }

  /** The lines that `readline()` returns, in order, until `data` is used up. */
  function SplitLines(data: seq<byte>): seq<Line>
    decreases |data|
  {
    if data == [] then []
    else
      var n := LineEnd(data);
      [data[..n]] + SplitLines(data[n..])
  }

  /** The lines rebuild the data, and each is a line as `readline()` returns it. */
  lemma SplitLinesSound(data: seq<byte>)
    ensures Concat(SplitLines(data)) == data
    ensures WellSplit(SplitLines(data))
  {
    SplitLinesConcat(data);
    SplitLinesWellSplit(data);
  }

  lemma {:induction false} SplitLinesConcat(data: seq<byte>)
    ensures Concat(SplitLines(data)) == data
    decreases |data|
  {
    if data != [] {
      var n := LineEnd(data);
      var lines := SplitLines(data);
      var rest := SplitLines(data[n..]);
      SplitLinesConcat(data[n..]);
      assert lines == [data[..n]] + rest;
      assert lines[0] == data[..n] && lines[1..] == rest;
      calc {
        Concat(lines);
        lines[0] + Concat(lines[1..]);
        data[..n] + data[n..];
        data;
      }
    }
  }

  lemma {:induction false} SplitLinesWellSplit(data: seq<byte>)
    ensures WellSplit(SplitLines(data))
    decreases |data|
  {
    if data != [] {
      var n := LineEnd(data);
      var rest := SplitLines(data[n..]);
      var lines := SplitLines(data);
      SplitLinesWellSplit(data[n..]);
      FirstLine(data);
      assert lines[0] == data[..n];
      assert rest != [] ==> n < |data|;
      forall i | 0 <= i < |lines| ensures IsLine(lines[i]) {
        if i > 0 { assert lines[i] == rest[i - 1]; }
      }
      forall i | 0 <= i < |lines| - 1 ensures lines[i][|lines[i]| - 1] == NEWLINE {
        if i > 0 { assert lines[i] == rest[i - 1]; }
      }
    }
  }

  /** The first line has no newline but possibly its last byte, and ends in
      one when more data follows. */
  lemma {:induction false} LineEndStops(data: seq<byte>)
    requires |data| > 0
    ensures forall i | 0 <= i < LineEnd(data) - 1 :: data[i] != NEWLINE
    ensures LineEnd(data) < |data| ==> data[LineEnd(data) - 1] == NEWLINE
    decreases |data|
  {
    if data[0] != NEWLINE && |data| > 1 {
      var tail := data[1..];
      LineEndStops(tail);
      forall i | 0 <= i < LineEnd(data) - 1 ensures data[i] != NEWLINE {
        if i > 0 {
          assert data[i] == tail[i - 1];
        }
      }
      assert LineEnd(data) < |data| ==> data[LineEnd(data) - 1] == tail[LineEnd(tail) - 1];
    }
  }

  /** The first line of the data is a line, ending in its newline when more
      data follows. */
  lemma FirstLine(data: seq<byte>)
    requires |data| > 0
    ensures IsLine(data[..LineEnd(data)])
    ensures LineEnd(data) < |data| ==> data[..LineEnd(data)][LineEnd(data) - 1] == NEWLINE
  {
    var n := LineEnd(data);
    var head := data[..n];
    LineEndStops(data);
    forall j | 0 <= j < n - 1 ensures head[j] != NEWLINE {
      assert head[j] == data[j];
    }
  }

  /** A line that is followed by more data ends where its newline is. */
  lemma {:induction false} LineEndOf(line: Line, rest: seq<byte>)
    requires IsLine(line)
    requires line[|line| - 1] == NEWLINE || rest == []
    ensures LineEnd(line + rest) == |line|
    decreases |line|
  {
    var d := line + rest;
    assert d[0] == line[0];
    if |line| > 1 {
      var tail := line[1..];
      assert IsLine(tail) by {
        forall j | 0 <= j < |tail| - 1 ensures tail[j] != NEWLINE {
          assert tail[j] == line[j + 1];
        }
      }
      assert tail[|tail| - 1] == line[|line| - 1];
      assert d[1..] == tail + rest;
      LineEndOf(tail, rest);
    }
  }

  /** Splitting is the inverse of concatenation on well-split lines: the line
      structure of the data is unique. */
  lemma {:induction false} SplitConcat(lines: seq<Line>)
    requires WellSplit(lines)
    ensures SplitLines(Concat(lines)) == lines
  {
    if lines != [] {
      var rest := Concat(lines[1..]);
      assert rest != [] ==> |lines| > 1 by {
        if |lines| <= 1 { assert lines[1..] == []; }
      }
      LineEndOf(lines[0], rest);
      assert (lines[0] + rest)[..|lines[0]|] == lines[0];
      assert (lines[0] + rest)[|lines[0]|..] == rest;
      assert WellSplit(lines[1..]) by {
        forall i | 0 <= i < |lines| - 1 ensures IsLine(lines[1..][i]) {
          assert lines[1..][i] == lines[i + 1];
        }
      }
      SplitConcat(lines[1..]);
    }
  }

  // ---------------------------------------------------------------------------
  // Header

  /** A header line as the loop compares it: ASCII-decoded and stripped, or
      `None` when decoding raises. */
  function LineText(line: Line): Option<string> {
    match DecodeAscii(line)
    case None => None
    case Some(text) => Some(Strip(text))
  }

  /** The header loop leaves at this line: it breaks on `end_header`, and a
      non-ASCII line makes it raise. */
  predicate StopsHeader(line: Line) {
    LineText(line).None? || LineText(line) == Some(END_HEADER)
  }

  /** The header loop stops at all. Past the end of the data `readline()`
      returns empty lines forever, and those never stop it. */
  predicate HeaderTerminates(data: seq<byte>) {
    Find(SplitLines(data), StopsHeader).Some?
  }

  /** The `while` loop of `read_custom_ply` that reads the header: consume lines up to and including the
      first `end_header` line and return what `data.read()` then yields. */
  function SkipHeader(data: seq<byte>): (r: Result<seq<byte>, PlyError>)
    requires HeaderTerminates(data)
    ensures r.Err? ==> r.error == HeaderNotAscii
    ensures r.Err? <==> exists k :: HeaderFailsAt(data, k)
  {
    var lines := SplitLines(data);
    var k := Find(lines, StopsHeader).value;
    if LineText(lines[k]).None? then
      assert HeaderFailsAt(data, k);
      Err(HeaderNotAscii)
    else
      assert LineText(lines[k]) == Some(END_HEADER);
      NoHeaderFailure(data, k);
      Ok(Concat(lines[k + 1..]))
  }

  /** What a successful header skip returns is the data after the first
      `end_header` line, every earlier line having decoded. */
  lemma SkipHeaderBody(data: seq<byte>)
    requires HeaderTerminates(data) && SkipHeader(data).Ok?
    ensures exists k :: IsBodyAfterHeader(data, SkipHeader(data).value, k)
  {
    var lines := SplitLines(data);
    var k := Find(lines, StopsHeader).value;
    assert LineText(lines[k]) == Some(END_HEADER);
    BodyAtStop(data, k);
  }

  /** When the loop stops at an `end_header` line, the rest of the data is the
      body and no line fails to decode before it. */
  lemma BodyAtStop(data: seq<byte>, k: nat)
    requires k < |SplitLines(data)| && LineText(SplitLines(data)[k]) == Some(END_HEADER)
    requires forall i | 0 <= i < k :: !StopsHeader(SplitLines(data)[i])
    ensures IsBodyAfterHeader(data, Concat(SplitLines(data)[k + 1..]), k)
    ensures forall j :: !HeaderFailsAt(data, j)
  {
    SplitLinesSound(data);
    SplitAfter(SplitLines(data), k);
    EarlierLinesRead(SplitLines(data), k);
    NoHeaderFailure(data, k);
  }

  /** The data is the lines up to the `k`-th, then the lines after it. */
  lemma SplitAfter(lines: seq<Line>, k: nat)
    requires k < |lines|
    ensures Concat(lines) == Concat(lines[..k + 1]) + Concat(lines[k + 1..])
  {
    ConcatSplit(lines, k + 1);
  }

  /** Lines that do not stop the loop decode and do not read `end_header`. */
  lemma EarlierLinesRead(lines: seq<Line>, k: nat)
    requires k <= |lines|
    requires forall i | 0 <= i < k :: !StopsHeader(lines[i])
    ensures forall i | 0 <= i < k :: LineText(lines[i]).Some? && LineText(lines[i]) != Some(END_HEADER)
  {
  }

  /** No line fails to decode when the `k`-th line is the first to stop the
      loop and it reads `end_header`. */
  lemma NoHeaderFailure(data: seq<byte>, k: nat)
    requires k < |SplitLines(data)| && LineText(SplitLines(data)[k]) == Some(END_HEADER)
    requires forall i | 0 <= i < k :: !StopsHeader(SplitLines(data)[i])
    ensures forall j :: !HeaderFailsAt(data, j)
  {
    var lines := SplitLines(data);
    forall j ensures !HeaderFailsAt(data, j) {
      if 0 <= j < k {
        assert LineText(lines[j]).Some? by {
          assert !StopsHeader(lines[j]);
        }
      } else if j == k {
        assert LineText(lines[j]).Some?;
      } else if k < j < |lines| {
        assert 0 <= k < j;
        assert !(LineText(lines[k]).Some? && LineText(lines[k]) != Some(END_HEADER));
      }
    }
  }

  /** `body` is what follows the `k`-th line, that line is the first to read
      `end_header`, and every line before it is ASCII. */
  predicate IsBodyAfterHeader(data: seq<byte>, body: seq<byte>, k: int) {
    var lines := SplitLines(data);
    && 0 <= k < |lines|
    && data == Concat(lines[..k + 1]) + body
    && LineText(lines[k]) == Some(END_HEADER)
    && forall i | 0 <= i < k :: LineText(lines[i]).Some? && LineText(lines[i]) != Some(END_HEADER)
  }

  /** The `k`-th line is not ASCII and no line before it reads `end_header`. */
  predicate HeaderFailsAt(data: seq<byte>, k: int) {
    var lines := SplitLines(data);
    && 0 <= k < |lines|
    && LineText(lines[k]).None?
    && forall i | 0 <= i < k :: LineText(lines[i]).Some? && LineText(lines[i]) != Some(END_HEADER)
  }

  // ---------------------------------------------------------------------------
  // Records

  /** `struct.unpack("<14f", ...)` of one record, each value kept as its word. */
  function DecodeRecord(bs: seq<byte>): (r: Record)
    requires |bs| == RECORD_SIZE
    ensures |r| == VALUES_PER_RECORD
    ensures forall j | 0 <= j < VALUES_PER_RECORD :: WordBytes(r[j]) == bs[WORD_SIZE * j..WORD_SIZE * j + WORD_SIZE]
  {
    seq(VALUES_PER_RECORD, j requires 0 <= j < VALUES_PER_RECORD =>
      Word(bs[4 * j], bs[4 * j + 1], bs[4 * j + 2], bs[4 * j + 3]))
  }

  function WordBytes(w: Word): seq<byte> {
    [w.b0, w.b1, w.b2, w.b3]
  }

  /** The records `struct.iter_unpack` yields, in body order. */
  function Records(body: seq<byte>): (rs: seq<Record>)
    ensures |rs| == |body| / RECORD_SIZE
    ensures forall i | 0 <= i < |rs| :: |rs[i]| == VALUES_PER_RECORD
  {
    seq(|body| / RECORD_SIZE, i requires 0 <= i < |body| / RECORD_SIZE =>
      DecodeRecord(body[RECORD_SIZE * i..RECORD_SIZE * i + RECORD_SIZE]))
  }

  predicate WellFormed(rs: seq<Record>) {
    forall i | 0 <= i < |rs| :: |rs[i]| == VALUES_PER_RECORD
  }

  /** The bytes of a record: its words one after another. */
  function EncodeRecord(r: Record): (bs: seq<byte>)
    ensures |bs| == WORD_SIZE * |r|
  {
    if r == [] then [] else WordBytes(r[0]) + EncodeRecord(r[1..])
  }

  /** The bytes of a body made of `rs`: records one after another. */
  function Pack(rs: seq<Record>): (bs: seq<byte>)
    requires WellFormed(rs)
    ensures |bs| == RECORD_SIZE * |rs|
  {
    if rs == [] then [] else EncodeRecord(rs[0]) + Pack(rs[1..])
  }

  lemma {:induction false} EncodeRecordAt(r: Record, j: nat)
    requires j < |r|
    ensures EncodeRecord(r)[WORD_SIZE * j..WORD_SIZE * j + WORD_SIZE] == WordBytes(r[j])
  {
    if j > 0 {
      EncodeRecordAt(r[1..], j - 1);
      assert EncodeRecord(r) == WordBytes(r[0]) + EncodeRecord(r[1..]);
    }
  }

  /** Decoding a record's bytes gives the record back. */
  lemma DecodeEncodeRecord(r: Record)
    requires |r| == VALUES_PER_RECORD
    ensures DecodeRecord(EncodeRecord(r)) == r
  {
    var d := DecodeRecord(EncodeRecord(r));
    forall j | 0 <= j < VALUES_PER_RECORD ensures d[j] == r[j] {
      EncodeRecordAt(r, j);
      assert WordBytes(d[j]) == WordBytes(r[j]);
    }
  }

  /** Encoding a decoded record gives its bytes back. */
  lemma {:induction false} EncodeDecodeRecord(bs: seq<byte>)
    requires |bs| == RECORD_SIZE
    ensures EncodeRecord(DecodeRecord(bs)) == bs
  {
    var e := EncodeRecord(DecodeRecord(bs));
    forall m | 0 <= m < RECORD_SIZE ensures e[m] == bs[m] {
      var j := m / WORD_SIZE;
      EncodeRecordAt(DecodeRecord(bs), j);
      assert e[m] == e[WORD_SIZE * j..WORD_SIZE * j + WORD_SIZE][m - WORD_SIZE * j];
    }
  }

  /** Reading the records of a packed body gives the records back. */
  lemma {:induction false} RecordsOfPack(rs: seq<Record>)
    requires WellFormed(rs)
    ensures Records(Pack(rs)) == rs
  {
    var body := Pack(rs);
    forall i | 0 <= i < |rs| ensures Records(body)[i] == rs[i] {
      PackAt(rs, i);
      DecodeEncodeRecord(rs[i]);
    }
  }

  lemma {:induction false} PackAt(rs: seq<Record>, i: nat)
    requires WellFormed(rs) && i < |rs|
    ensures Pack(rs)[RECORD_SIZE * i..RECORD_SIZE * i + RECORD_SIZE] == EncodeRecord(rs[i])
  {
    if i > 0 {
      assert WellFormed(rs[1..]) by {
        forall k | 0 <= k < |rs| - 1 ensures |rs[1..][k]| == VALUES_PER_RECORD {
          assert rs[1..][k] == rs[k + 1];
        }
      }
      PackAt(rs[1..], i - 1);
      assert Pack(rs) == EncodeRecord(rs[0]) + Pack(rs[1..]);
    }
  }

  /** Packing the records of a body of whole records gives the body back: no
      byte is lost or reordered by the record split. */
  lemma {:induction false} PackOfRecords(body: seq<byte>)
    requires |body| % RECORD_SIZE == 0
    ensures Pack(Records(body)) == body
    decreases |body|
  {
    if body != [] {
      var rs := Records(body);
      var head, tail := body[..RECORD_SIZE], body[RECORD_SIZE..];
      RecordsSplit(body);
      PackOfRecords(tail);
      EncodeDecodeRecord(head);
      assert Pack(rs) == EncodeRecord(rs[0]) + Pack(rs[1..]);
      assert body == head + tail;
    }
  }

  /** The records of a body are its first record followed by the records of
      the rest. */
  lemma RecordsSplit(body: seq<byte>)
    requires |body| % RECORD_SIZE == 0 && body != []
    ensures |Records(body)| > 0
    ensures Records(body)[0] == DecodeRecord(body[..RECORD_SIZE])
    ensures Records(body)[1..] == Records(body[RECORD_SIZE..])
  {
    var rs := Records(body);
    var tail := body[RECORD_SIZE..];
    var ts := Records(tail);
    assert |ts| == |rs| - 1;
    forall i | 0 <= i < |ts| ensures rs[1..][i] == ts[i] {
      assert tail[RECORD_SIZE * i..RECORD_SIZE * i + RECORD_SIZE]
          == body[RECORD_SIZE * (i + 1)..RECORD_SIZE * (i + 1) + RECORD_SIZE];
    }
  }

  // ---------------------------------------------------------------------------
  // Fields

  /** The slice `values[lo:hi]` of every record, concatenated in record order:
      what `list.extend(values[lo:hi])` accumulates over the loop. */
  function Field(rs: seq<Record>, lo: nat, hi: nat): (f: seq<Word>)
    requires lo <= hi <= VALUES_PER_RECORD
    requires WellFormed(rs)
    ensures |f| == Offset(hi - lo, |rs|)
  {
    if rs == [] then [] else Field(rs[..|rs| - 1], lo, hi) + rs[|rs| - 1][lo..hi]
  }

  /** Where the `i`-th block of width `w` starts: `w * i`, built up by
      addition so that reasoning about blocks stays linear. */
  function Offset(w: nat, i: nat): nat {
    if i == 0 then 0 else Offset(w, i - 1) + w
  }

  lemma {:induction false} OffsetIsProduct(w: nat, i: nat)
    ensures Offset(w, i) == w * i
  {
    if i > 0 {
      OffsetIsProduct(w, i - 1);
      assert w * i == w * (i - 1) + w;
    }
  }

  /** The `i`-th block of `w` consecutive values. */
  function Block<T>(s: seq<T>, w: nat, i: nat): seq<T> {
    if Offset(w, i) + w <= |s| then s[Offset(w, i)..Offset(w, i) + w] else []
  }

  /** Record `i`'s slice `lo..hi` is block `i` of its field: the lists keep
      record order and every record contributes exactly its own slice. */
  lemma {:induction false} FieldBlock(rs: seq<Record>, lo: nat, hi: nat, i: nat)
    requires lo <= hi <= VALUES_PER_RECORD && WellFormed(rs)
    requires i < |rs|
    ensures Block(Field(rs, lo, hi), hi - lo, i) == rs[i][lo..hi]
  {
    var w := hi - lo;
    var n := |rs|;
    var prefix := rs[..n - 1];
    var last := rs[n - 1][lo..hi];
    var pf := Field(prefix, lo, hi);
    assert Field(rs, lo, hi) == pf + last;
    BlockOfAppend(pf, last, w, i, n - 1);
    if i < n - 1 {
      assert WellFormed(prefix);
      FieldBlock(prefix, lo, hi, i);
      assert prefix[i] == rs[i];
      assert Block(pf + last, w, i) == Block(pf, w, i) == rs[i][lo..hi];
    } else {
      assert Block(pf + last, w, i) == last == rs[i][lo..hi];
    }
  }

  /** Appending one more block of width `w` to `n` blocks keeps the first `n`
      and adds the new one as block `n`. */
  lemma BlockOfAppend<T>(a: seq<T>, b: seq<T>, w: nat, i: nat, n: nat)
    requires |a| == Offset(w, n) && |b| == w && i <= n
    ensures Block(a + b, w, i) == if i < n then Block(a, w, i) else b
  {
    if i < n {
      BlockInside(w, i, n);
      Seqs.SliceLeft(a, b, Offset(w, i), Offset(w, i) + w);
    } else {
      Seqs.SliceRight(a, b);
    }
  }

  /** The reader's result for a list of records: what the `for values in
      struct.iter_unpack(...)` loop of `read_custom_ply` builds. */
  function Scatter(rs: seq<Record>): (d: PlyData)
    requires WellFormed(rs)
    ensures d.count == |rs|
    ensures |d.xyz| == 3 * d.count && |d.fDc| == 3 * d.count && |d.opacity| == d.count
    ensures |d.scale| == 3 * d.count && |d.rot| == 4 * d.count
  {
    OffsetIsProduct(3, |rs|);
    OffsetIsProduct(1, |rs|);
    OffsetIsProduct(4, |rs|);
    PlyData(Field(rs, 0, 3), Field(rs, 3, 6), Field(rs, 6, 7), Field(rs, 7, 10), Field(rs, 10, 14), |rs|)
  }

  /** Field lists of the lengths `Scatter` produces. */
  predicate Shaped(d: PlyData) {
    && |d.xyz| == 3 * d.count && |d.fDc| == 3 * d.count && |d.opacity| == d.count
    && |d.scale| == 3 * d.count && |d.rot| == 4 * d.count
  }

  /** Record `i` rebuilt from the five lists. */
  function RecordOf(d: PlyData, i: nat): (r: Record)
    requires Shaped(d) && i < d.count
    ensures |r| == VALUES_PER_RECORD
  {
    OffsetIsProduct(3, i);
    OffsetIsProduct(1, i);
    OffsetIsProduct(4, i);
    Block(d.xyz, 3, i) + Block(d.fDc, 3, i) + Block(d.opacity, 1, i)
    + Block(d.scale, 3, i) + Block(d.rot, 4, i)
  }

  /** The records the five lists stand for. */
  function Gather(d: PlyData): (rs: seq<Record>)
    requires Shaped(d)
    ensures |rs| == d.count && WellFormed(rs)
  {
    seq(d.count, i requires 0 <= i < d.count => RecordOf(d, i))
  }

  /** A record is its five slices 0-2, 3-5, 6, 7-9 and 10-13 put together. */
  lemma RecordSlices(r: Record)
    requires |r| == VALUES_PER_RECORD
    ensures r == r[0..3] + r[3..6] + r[6..7] + r[7..10] + r[10..14]
  {
  }

  /** The five slices partition every record: putting record `i` back
      together from the five lists gives record `i`. */
  lemma GatherScatter(rs: seq<Record>)
    requires WellFormed(rs)
    ensures Gather(Scatter(rs)) == rs
  {
    var d := Scatter(rs);
    forall i | 0 <= i < |rs| ensures RecordOf(d, i) == rs[i] {
      FieldBlock(rs, 0, 3, i);
      FieldBlock(rs, 3, 6, i);
      FieldBlock(rs, 6, 7, i);
      FieldBlock(rs, 7, 10, i);
      FieldBlock(rs, 10, 14, i);
      RecordSlices(rs[i]);
    }
  }

  /** The five slices of a rebuilt record are the blocks it was built from. */
  lemma RecordOfSlices(d: PlyData, i: nat)
    requires Shaped(d) && i < d.count
    ensures var r := RecordOf(d, i);
      && r[0..3] == Block(d.xyz, 3, i)
      && r[3..6] == Block(d.fDc, 3, i)
      && r[6..7] == Block(d.opacity, 1, i)
      && r[7..10] == Block(d.scale, 3, i)
      && r[10..14] == Block(d.rot, 4, i)
  {
    OffsetIsProduct(3, i);
    OffsetIsProduct(1, i);
    OffsetIsProduct(4, i);
  }

  /** A list whose blocks are the records' slices `lo..hi` is their field. */
  lemma FieldOfBlocks(rs: seq<Record>, lo: nat, hi: nat, s: seq<Word>)
    requires lo < hi <= VALUES_PER_RECORD && WellFormed(rs)
    requires |s| == Offset(hi - lo, |rs|)
    requires forall i | 0 <= i < |rs| :: rs[i][lo..hi] == Block(s, hi - lo, i)
    ensures Field(rs, lo, hi) == s
  {
    var w := hi - lo;
    var f := Field(rs, lo, hi);
    forall i | 0 <= i < |rs| ensures Block(f, w, i) == Block(s, w, i) {
      FieldBlock(rs, lo, hi, i);
    }
    Cover(f, s, w, |rs|);
  }

  /** The shape of the lists is all they carry: scattering the records they
      stand for gives them back. */
  lemma ScatterGather(d: PlyData)
    requires Shaped(d)
    ensures Scatter(Gather(d)) == d
  {
    var rs := Gather(d);
    forall i | 0 <= i < d.count
      ensures rs[i][0..3] == Block(d.xyz, 3, i) && rs[i][3..6] == Block(d.fDc, 3, i)
      ensures rs[i][6..7] == Block(d.opacity, 1, i)
      ensures rs[i][7..10] == Block(d.scale, 3, i) && rs[i][10..14] == Block(d.rot, 4, i)
    {
      RecordOfSlices(d, i);
    }
    OffsetIsProduct(3, d.count);
    OffsetIsProduct(1, d.count);
    OffsetIsProduct(4, d.count);
    FieldOfBlocks(rs, 0, 3, d.xyz);
    FieldOfBlocks(rs, 3, 6, d.fDc);
    FieldOfBlocks(rs, 6, 7, d.opacity);
    FieldOfBlocks(rs, 7, 10, d.scale);
    FieldOfBlocks(rs, 10, 14, d.rot);
  }

  /** Block `i` of `n` blocks of width `w` ends inside them. */
  lemma {:induction false} BlockInside(w: nat, i: nat, n: nat)
    requires i < n
    ensures Offset(w, i) + w <= Offset(w, n)
    decreases n - i
  {
    if i + 1 < n {
      BlockInside(w, i + 1, n);
    }
  }

  /** Every position below `n` blocks of width `w` lies in one of them. */
  lemma {:induction false} Decompose(w: nat, n: nat, k: nat) returns (i: nat, t: nat)
    requires 0 < w && k < Offset(w, n)
    ensures i < n && t < w && k == Offset(w, i) + t
  {
    if k < Offset(w, n - 1) {
      i, t := Decompose(w, n - 1, k);
    } else {
      i, t := n - 1, k - Offset(w, n - 1);
    }
  }

  /** Two lists of `n` blocks of width `w` that agree blockwise are equal. */
  lemma Cover(a: seq<Word>, b: seq<Word>, w: nat, n: nat)
    requires 0 < w && |a| == Offset(w, n) && |b| == Offset(w, n)
    requires forall i | 0 <= i < n :: Block(a, w, i) == Block(b, w, i)
    ensures a == b
  {
    forall k | 0 <= k < |a| ensures a[k] == b[k] {
      var i, t := Decompose(w, n, k);
      BlockInside(w, i, n);
      assert a[k] == Block(a, w, i)[t];
      assert b[k] == Block(b, w, i)[t];
    }
  }

  // ---------------------------------------------------------------------------
  // The reader

  /** The `for values in struct.iter_unpack(...)` loop of `read_custom_ply`:
      extend the five lists record by record. */
  method ScatterRecords(rs: seq<Record>) returns (d: PlyData)
    requires WellFormed(rs)
    ensures d == Scatter(rs)
  {
    var xyz, fDc, opacity, scale, rot := [], [], [], [], [];
    var i := 0;
    while i < |rs|
      invariant 0 <= i <= |rs|
      invariant xyz == Field(rs[..i], 0, 3) && fDc == Field(rs[..i], 3, 6)
      invariant opacity == Field(rs[..i], 6, 7)
      invariant scale == Field(rs[..i], 7, 10) && rot == Field(rs[..i], 10, 14)
    {
      var values := rs[i];
      assert rs[..i + 1][..i] == rs[..i];
      xyz := xyz + values[0..3];
      fDc := fDc + values[3..6];
      opacity := opacity + [values[6]];
      scale := scale + values[7..10];
      rot := rot + values[10..14];
      i := i + 1;
    }
    assert rs[..i] == rs;
    d := PlyData(xyz, fDc, opacity, scale, rot, |rs|);
  }

  /** `read_custom_ply`: header skip, then records, then the field scatter. */
  method ReadCustomPly(data: seq<byte>) returns (r: Result<PlyData, PlyError>)
    requires HeaderTerminates(data)
    ensures SkipHeader(data).Err? ==> r == Err(HeaderNotAscii)
    ensures SkipHeader(data).Ok? ==>
      var body := SkipHeader(data).value;
      && (|body| % RECORD_SIZE != 0 ==> r == Err(TrailingBytes(|body| % RECORD_SIZE)))
      && (|body| % RECORD_SIZE == 0 ==> r.Ok? && r.value == Scatter(Records(body)))
    ensures r.Ok? ==> Shaped(r.value) && WORD_SIZE * VALUES_PER_RECORD * r.value.count == |SkipHeader(data).value|
  {
    var body :- SkipHeader(data);
    if |body| % RECORD_SIZE != 0 {
      return Err(TrailingBytes(|body| % RECORD_SIZE));
    }
    var d := ScatterRecords(Records(body));
    return Ok(d);
  }

  /** Where each record's values land in the unpacking loop: words 0-2, 3-5, 6, 7-9 and
      10-13 of record `i` are at positions 3i, 3i, i, 3i and 4i of xyz, f_dc,
      opacity, scale and rot, so record order is kept in every list. */
  lemma ScatterPositions(rs: seq<Record>, i: nat)
    requires WellFormed(rs) && i < |rs|
    ensures Scatter(rs).xyz[3 * i..3 * i + 3] == rs[i][0..3]
    ensures Scatter(rs).fDc[3 * i..3 * i + 3] == rs[i][3..6]
    ensures Scatter(rs).opacity[i] == rs[i][6]
    ensures Scatter(rs).scale[3 * i..3 * i + 3] == rs[i][7..10]
    ensures Scatter(rs).rot[4 * i..4 * i + 4] == rs[i][10..14]
  {
    TripleAt(rs, 0, i);
    TripleAt(rs, 3, i);
    OpacityAt(rs, i);
    TripleAt(rs, 7, i);
    RotAt(rs, i);
  }

  /** The three-value slices: xyz, f_dc and scale. */
  lemma TripleAt(rs: seq<Record>, lo: nat, i: nat)
    requires lo + 3 <= VALUES_PER_RECORD && WellFormed(rs) && i < |rs|
    ensures 3 * i + 3 <= |Field(rs, lo, lo + 3)|
    ensures Field(rs, lo, lo + 3)[3 * i..3 * i + 3] == rs[i][lo..lo + 3]
  {
    FieldAt(rs, lo, lo + 3, i);
  }

  lemma OpacityAt(rs: seq<Record>, i: nat)
    requires WellFormed(rs) && i < |rs|
    ensures Scatter(rs).opacity[i] == rs[i][6]
  {
    var f := Scatter(rs).opacity;
    FieldBlock(rs, 6, 7, i);
    BlockInside(1, i, |rs|);
    OffsetIsProduct(1, i);
    assert Offset(1, i) == i && i + 1 <= |f|;
    assert f[i..i + 1] == Block(f, 1, i) == rs[i][6..7];
    assert f[i] == f[i..i + 1][0];
  }

  lemma RotAt(rs: seq<Record>, i: nat)
    requires WellFormed(rs) && i < |rs|
    ensures Scatter(rs).rot[4 * i..4 * i + 4] == rs[i][10..14]
  {
    FieldAt(rs, 10, 14, i);
  }

  /** Record `i`'s slice `lo..hi` sits at position `(hi - lo) * i` of its field. */
  lemma FieldAt(rs: seq<Record>, lo: nat, hi: nat, i: nat)
    requires lo <= hi <= VALUES_PER_RECORD && WellFormed(rs)
    requires i < |rs|
    ensures Offset(hi - lo, i) == (hi - lo) * i
    ensures Offset(hi - lo, i) + (hi - lo) <= |Field(rs, lo, hi)|
    ensures Field(rs, lo, hi)[Offset(hi - lo, i)..Offset(hi - lo, i) + (hi - lo)] == rs[i][lo..hi]
  {
    var w := hi - lo;
    FieldBlock(rs, lo, hi, i);
    BlockInside(w, i, |rs|);
    OffsetIsProduct(w, i);
  }
}
