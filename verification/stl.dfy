/** The two STL importers of grslicer/importers/stl.py.

    Both importers feed a vertex merger: they size it for three rows per
    face, call `add` once per vertex in file order and call `finalize` once.
    The merger itself (tolerance merging, edge and face construction) is
    not part of this model; an importer run is modelled by the log of the
    calls it makes on the merger.  Turning text or four raw bytes into a
    float is left abstract: `float()` on a token and `unpack('f', ...)` are
    passed in as functions. */
module Stl {
  import opened Outcomes
  import opened ByteText

  datatype Vec3 = Vec3(x: real, y: real, z: real)

  /** One call made on the vertex merger. */
  datatype MergerCall = Add(v: Vec3) | Finalize

  /** A merger sized for `rows` vertex rows, with merging tolerance
      `tolerance` (the `roundOffError` setting), and the calls it received. */
  datatype MergerLog = MergerLog(rows: int, tolerance: real, calls: seq<MergerCall>)

  datatype ImportError =
    | NotRecognized                     // SlicerImportException
    | MalformedVertexLine(line: Bytes)  // ValueError raised by float()

  /** Python's `float()` applied to one token: None when it raises. */
  type FloatParser = Bytes -> Option<real>

  /** `unpack('f', b)[0]` for a four-byte string `b`. */
  type FloatDecoder = Bytes -> real

  /** The merger received some `add` calls and then exactly one `finalize`. */
  predicate AddsThenFinalize(calls: seq<MergerCall>) {
    && |calls| >= 1
    && calls[|calls| - 1] == Finalize
    && forall i | 0 <= i < |calls| - 1 :: calls[i].Add?
  }

  /** `add(v)` for every `v`, in order, then `finalize()`. */
  function AddAllThenFinalize(vs: seq<Vec3>): (calls: seq<MergerCall>)
    ensures AddsThenFinalize(calls)
    ensures |calls| == |vs| + 1
    ensures forall i | 0 <= i < |vs| :: calls[i] == Add(vs[i])
  {
    seq(|vs|, i requires 0 <= i < |vs| => Add(vs[i])) + [Finalize]
  }

  // ---------------------------------------------------------------------------
  // StlAsciiImporter

  const SOLID: Bytes := Ascii("solid")
  const VERTEX: Bytes := Ascii("vertex")
  const FACET_NORMAL: Bytes := Ascii("facet normal")

  /** `StlAsciiImporter.can_import`: all three keywords occur somewhere. */
  predicate CanImportAscii(c: Bytes) {
    Contains(c, SOLID) && Contains(c, VERTEX) && Contains(c, FACET_NORMAL)
  }

  /** `StlAsciiImporter._get_face_nr`: `contents.count('facet normal')`. */
  function AsciiFaceCount(c: Bytes): nat {
    Count(c, FACET_NORMAL)
  }

  /** Contents the ASCII importer accepts announce at least one face. */
  lemma AcceptedAsciiHasFaces(c: Bytes)
    requires CanImportAscii(c)
    ensures AsciiFaceCount(c) >= 1
  {
    CountZeroIffAbsent(c, FACET_NORMAL);
  }

  /** The lines, in order, that contain the substring "vertex". */
  function VertexLines(lines: seq<Bytes>): (vl: seq<Bytes>)
    ensures |vl| <= |lines|
    decreases |lines|
  {
    if |lines| == 0 then []
    else
      var last := lines[|lines| - 1];
      VertexLines(lines[..|lines| - 1]) + if Contains(last, VERTEX) then [last] else []
  }

  /** Every vertex line is one of the lines and holds "vertex". */
  lemma {:induction false} VertexLinesSelected(lines: seq<Bytes>)
    ensures forall k | 0 <= k < |VertexLines(lines)| :: Contains(VertexLines(lines)[k], VERTEX) && VertexLines(lines)[k] in lines
    decreases |lines|
  {
    if |lines| > 0 {
      var init := lines[..|lines| - 1];
      VertexLinesSelected(init);
      assert forall l | l in init :: l in lines;
    }
  }

  /** Indices of the lines that contain "vertex". */
  function VertexLineIndices(lines: seq<Bytes>): set<nat> {
    set i | 0 <= i < |lines| && Contains(lines[i], VERTEX)
  }

  /** Exactly one entry per line containing "vertex". */
  lemma {:induction false} VertexLinesCount(lines: seq<Bytes>)
    ensures |VertexLines(lines)| == |VertexLineIndices(lines)|
    decreases |lines|
  {
    if |lines| > 0 {
      var n := |lines| - 1;
      var init := lines[..n];
      VertexLinesCount(init);
      if Contains(lines[n], VERTEX) {
        assert VertexLineIndices(lines) == VertexLineIndices(init) + {n};
      } else {
        assert VertexLineIndices(lines) == VertexLineIndices(init);
      }
    }
  }

  /** `vl` is the lines containing "vertex", each taken once and in the
      order of the contents: `idx` gives the position of every entry's line,
      strictly increasing, and holds every line that contains "vertex". */
  predicate SelectedAt(lines: seq<Bytes>, vl: seq<Bytes>, idx: seq<nat>) {
    && |idx| == |vl|
    && (forall a, b | 0 <= a < b < |idx| :: idx[a] < idx[b])
    && (forall k | 0 <= k < |idx| :: idx[k] < |lines| && vl[k] == lines[idx[k]] && Contains(lines[idx[k]], VERTEX))
    && (forall i | 0 <= i < |lines| && Contains(lines[i], VERTEX) :: i in idx)
  }

  /** One more line extends the selection when it contains "vertex". */
  lemma SelectedAtSnoc(lines: seq<Bytes>, vl: seq<Bytes>, idx: seq<nat>)
    requires |lines| > 0 && SelectedAt(lines[..|lines| - 1], vl, idx)
    ensures var n := |lines| - 1;
      if Contains(lines[n], VERTEX) then SelectedAt(lines, vl + [lines[n]], idx + [n])
      else SelectedAt(lines, vl, idx)
  {
    var n := |lines| - 1;
    assert forall k | 0 <= k < |idx| :: lines[idx[k]] == lines[..n][idx[k]];
    forall i | 0 <= i < n && Contains(lines[i], VERTEX)
      ensures i in idx
    {
      assert lines[..n][i] == lines[i];
    }
  }

  /** The vertex lines are the lines containing "vertex", each taken once
      and in the order of the contents. */
  lemma {:induction false} VertexLinesIndexed(lines: seq<Bytes>) returns (idx: seq<nat>)
    ensures SelectedAt(lines, VertexLines(lines), idx)
    decreases |lines|
  {
    if |lines| == 0 {
      idx := [];
    } else {
      var n := |lines| - 1;
      var prev := VertexLinesIndexed(lines[..n]);
      SelectedAtSnoc(lines, VertexLines(lines[..n]), prev);
      idx := if Contains(lines[n], VERTEX) then prev + [n] else prev;
    }
  }

  /** The point of one vertex line: `float()` of its last three
      whitespace-separated tokens.  A line with fewer than three tokens fails:
      one of its tokens then contains "vertex", which `float()` rejects. */
  function ParseVertexLine(line: Bytes, parse: FloatParser): (r: Result<Vec3, ImportError>)
    ensures r.Err? ==> r.error == MalformedVertexLine(line)
  {
    var t := LastThree(Tokens(line));
    if |t| < 3 then Err(MalformedVertexLine(line))
    else
      match (parse(t[0]), parse(t[1]), parse(t[2]))
      case (Some(x), Some(y), Some(z)) => Ok(Vec3(x, y, z))
      case _ => Err(MalformedVertexLine(line))
  }

  /** A vertex line parses exactly when it has at least three tokens and
      each of the last three is a number; its point is then those three
      numbers.  A line with fewer tokens fails. */
  lemma VertexLinePoint(line: Bytes, parse: FloatParser)
    ensures var ts := Tokens(line);
      && (|ts| < 3 ==> ParseVertexLine(line, parse).Err?)
      && (ParseVertexLine(line, parse).Ok? ==>
            && |ts| >= 3
            && parse(ts[|ts| - 3]) == Some(ParseVertexLine(line, parse).value.x)
            && parse(ts[|ts| - 2]) == Some(ParseVertexLine(line, parse).value.y)
            && parse(ts[|ts| - 1]) == Some(ParseVertexLine(line, parse).value.z))
    ensures var ts := Tokens(line);
      |ts| >= 3 && parse(ts[|ts| - 3]).Some? && parse(ts[|ts| - 2]).Some? && parse(ts[|ts| - 1]).Some? ==>
        ParseVertexLine(line, parse)
        == Ok(Vec3(parse(ts[|ts| - 3]).value, parse(ts[|ts| - 2]).value, parse(ts[|ts| - 1]).value))
    ensures var ts := Tokens(line);
      ParseVertexLine(line, parse).Err? <==>
        |ts| < 3 || parse(ts[|ts| - 3]).None? || parse(ts[|ts| - 2]).None? || parse(ts[|ts| - 1]).None?
  {
    LastThreeKeepsTail(Tokens(line));
  }

  /** Turning one vertex line into a point. */
  type LineParser = Bytes -> Result<Vec3, ImportError>

  function VertexLineParser(parse: FloatParser): LineParser {
    line => ParseVertexLine(line, parse)
  }

  /** The points of the vertex lines, in order; the first line that does not
      parse aborts the import. */
  function ParseVertexLines(vl: seq<Bytes>, lineParse: LineParser): (r: Result<seq<Vec3>, ImportError>)
    ensures r.Ok? ==> |r.value| == |vl|
    decreases |vl|
  {
    if |vl| == 0 then Ok([])
    else
      var n := |vl| - 1;
      match ParseVertexLines(vl[..n], lineParse)
      case Err(e) => Err(e)
      case Ok(ps) =>
        match lineParse(vl[n])
        case Err(e) => Err(e)
        case Ok(v) => Ok(ps + [v])
  }

  /** Each point is the parse of its vertex line; a failure is the failure
      of some vertex line. */
  lemma {:induction false} ParseVertexLinesPointwise(vl: seq<Bytes>, lineParse: LineParser)
    ensures var r := ParseVertexLines(vl, lineParse);
      && (r.Ok? ==> forall k | 0 <= k < |vl| :: lineParse(vl[k]) == Ok(r.value[k]))
      && (r.Err? ==> exists k | 0 <= k < |vl| :: lineParse(vl[k]) == Err(r.error))
    decreases |vl|
  {
    if |vl| > 0 {
      var n := |vl| - 1;
      ParseVertexLinesPointwise(vl[..n], lineParse);
      assert forall k | 0 <= k < n :: vl[..n][k] == vl[k];
    }
  }

  /** `StlAsciiImporter` construction followed by `import_contents`. */
  function AsciiImport(c: Bytes, tolerance: real, parse: FloatParser): (r: Result<MergerLog, ImportError>)
    ensures r.Ok? ==>
      var vl := VertexLines(SplitLines(c));
      && r.value.rows == 3 * Count(c, FACET_NORMAL)
      && r.value.tolerance == tolerance
      && AddsThenFinalize(r.value.calls)
      && |r.value.calls| == |vl| + 1
      && forall k | 0 <= k < |vl| :: ParseVertexLine(vl[k], parse) == Ok(r.value.calls[k].v)
    ensures r.Err? ==>
      && r.error.MalformedVertexLine?
      && r.error.line in VertexLines(SplitLines(c))
      && ParseVertexLine(r.error.line, parse).Err?
  {
    ParseVertexLinesPointwise(VertexLines(SplitLines(c)), VertexLineParser(parse));
    var points :- ParseVertexLines(VertexLines(SplitLines(c)), VertexLineParser(parse));
    Ok(MergerLog(3 * AsciiFaceCount(c), tolerance, AddAllThenFinalize(points)))
  }

  /** Accepted ASCII contents always reach the merger with at least one
      `add` call, unless a vertex line fails to parse. */
  lemma AcceptedAsciiAddsVertices(c: Bytes, tolerance: real, parse: FloatParser)
    requires CanImportAscii(c)
    ensures AsciiImport(c, tolerance, parse).Ok? ==> |AsciiImport(c, tolerance, parse).value.calls| >= 2
  {
    var lines := SplitLines(c);
    assert BreakFree(VERTEX);
    ContainedInSomeLine(c, VERTEX);
    var k :| 0 <= k < |lines| && Contains(lines[k], VERTEX);
    VertexLinesCount(lines);
    assert k in VertexLineIndices(lines);
  }

  /** The importer's loop over `contents.splitlines()`. */
  method ImportAsciiLoop(c: Bytes, tolerance: real, parse: FloatParser) returns (r: Result<MergerLog, ImportError>)
    ensures r == AsciiImport(c, tolerance, parse)
  {
    var points := ParseLinesLoop(SplitLines(c), VertexLineParser(parse));
    match points
    case Err(e) => r := Err(e);
    case Ok(ps) => r := Ok(MergerLog(3 * AsciiFaceCount(c), tolerance, AddAllThenFinalize(ps)));
  }

  /** The loop body: every line holding "vertex" is parsed and its point
      added; the first failure ends the loop. */
  method ParseLinesLoop(lines: seq<Bytes>, lineParse: LineParser) returns (r: Result<seq<Vec3>, ImportError>)
    ensures r == ParseVertexLines(VertexLines(lines), lineParse)
  {
    var points: seq<Vec3> := [];
    ghost var vl: seq<Bytes> := [];
    var i := 0;
    while i < |lines|
      invariant 0 <= i <= |lines|
      invariant vl == VertexLines(lines[..i])
      invariant ParseVertexLines(vl, lineParse) == Ok(points)
    {
      VertexLinesStep(lines, i);
      if Contains(lines[i], VERTEX) {
        var p := lineParse(lines[i]);
        ParseVertexLinesStep(vl, lines[i], lineParse);
        vl := vl + [lines[i]];
        if p.Err? {
          FailedLineDecides(lines, i + 1, lineParse);
          return Err(p.error);
        }
        points := points + [p.value];
      }
      i := i + 1;
    }
    assert lines[..i] == lines;
    r := Ok(points);
  }

  /** One more line adds itself to the vertex lines when it holds "vertex". */
  lemma VertexLinesStep(lines: seq<Bytes>, i: nat)
    requires i < |lines|
    ensures Contains(lines[i], VERTEX) ==> VertexLines(lines[..i + 1]) == VertexLines(lines[..i]) + [lines[i]]
    ensures !Contains(lines[i], VERTEX) ==> VertexLines(lines[..i + 1]) == VertexLines(lines[..i])
  {
    assert lines[..i + 1][..i] == lines[..i];
  }

  /** Parsing one more vertex line. */
  lemma ParseVertexLinesStep(vl: seq<Bytes>, line: Bytes, lineParse: LineParser)
    ensures ParseVertexLines(vl + [line], lineParse) ==
      match ParseVertexLines(vl, lineParse)
      case Err(e) => Err(e)
      case Ok(ps) => (match lineParse(line) case Err(e) => Err(e) case Ok(v) => Ok(ps + [v]))
  {
    assert (vl + [line])[..|vl|] == vl;
  }

  /** A parse failure among the first `i` lines is the import's failure. */
  lemma FailedLineDecides(lines: seq<Bytes>, i: nat, lineParse: LineParser)
    requires i <= |lines|
    requires ParseVertexLines(VertexLines(lines[..i]), lineParse).Err?
    ensures ParseVertexLines(VertexLines(lines), lineParse) == ParseVertexLines(VertexLines(lines[..i]), lineParse)
  {
    VertexLinesAppend(lines[..i], lines[i..]);
    assert lines[..i] + lines[i..] == lines;
    ParseVertexLinesErrSticks(VertexLines(lines[..i]), VertexLines(lines[i..]), lineParse);
  }

  lemma {:induction false} VertexLinesAppend(a: seq<Bytes>, b: seq<Bytes>)
    ensures VertexLines(a + b) == VertexLines(a) + VertexLines(b)
    decreases |b|
  {
    if |b| > 0 {
      var n := |b| - 1;
      assert (a + b)[..|a + b| - 1] == a + b[..n];
      VertexLinesAppend(a, b[..n]);
    } else {
      assert a + b == a;
    }
  }

  /** Once some vertex line fails to parse, later lines cannot undo it. */
  lemma {:induction false} ParseVertexLinesErrSticks(a: seq<Bytes>, b: seq<Bytes>, lineParse: LineParser)
    requires ParseVertexLines(a, lineParse).Err?
    ensures ParseVertexLines(a + b, lineParse) == ParseVertexLines(a, lineParse)
    decreases |b|
  {
    if |b| > 0 {
      var n := |b| - 1;
      assert (a + b)[..|a + b| - 1] == a + b[..n];
      ParseVertexLinesErrSticks(a, b[..n], lineParse);
    } else {
      assert a + b == a;
    }
  }

  // ---------------------------------------------------------------------------
  // StlBinImporter

  /** 80-byte header plus the 4-byte face count, which the importer ignores. */
  const HEADER_SIZE: nat := 84

  /** 12-byte normal, three 12-byte vertices, 2-byte attribute count. */
  const RECORD_SIZE: nat := 50

  /** `StlBinImporter.can_import`: anything the ASCII importer rejects. */
  predicate CanImportBinary(c: Bytes) {
    !CanImportAscii(c)
  }

  /** Exactly one of the two STL importers accepts any contents. */
  lemma ExactlyOneStlImporterAccepts(c: Bytes)
    ensures CanImportAscii(c) != CanImportBinary(c)
  {
  }

  /** `StlBinImporter._get_face_nr`: `(len(contents) - 84) / 50` with
      Python 2 integer division, which rounds towards minus infinity. */
  function BinaryFaceCount(c: Bytes): (n: int)
    ensures RECORD_SIZE * n <= |c| - HEADER_SIZE < RECORD_SIZE * (n + 1)
  {
    (|c| - HEADER_SIZE) / RECORD_SIZE
  }

  /** Trailing bytes short of a whole record are silently ignored. */
  lemma TrailingBytesIgnored(c: Bytes, extra: Bytes, faces: nat)
    requires |c| == HEADER_SIZE + RECORD_SIZE * faces && |extra| < RECORD_SIZE
    ensures BinaryFaceCount(c + extra) == BinaryFaceCount(c) == faces
  {
  }

  /** Number of records the import loop visits: `range(n)` is empty for n <= 0. */
  function RecordsRead(c: Bytes): nat {
    if BinaryFaceCount(c) < 0 then 0 else BinaryFaceCount(c)
  }

  function RecordStart(f: nat): nat {
    HEADER_SIZE + RECORD_SIZE * f
  }

  /** Offset of vertex `j` (1, 2 or 3) of face `f`: `84 + 50 f + 12 j`. */
  function VertexOffset(f: nat, j: nat): nat {
    RecordStart(f) + 12 * j
  }

  /** Every byte the import reads for vertex `j` of face `f` lies after the
      record's normal and before its attribute count, inside the contents. */
  lemma RecordLayout(c: Bytes, f: nat, j: nat, k: nat)
    requires f < RecordsRead(c) && 1 <= j <= 3 && k < 3
    ensures RecordStart(f) + 12 <= VertexOffset(f, j) + 4 * k
    ensures VertexOffset(f, j) + 4 * k + 4 <= RecordStart(f) + 48
    ensures RecordStart(f) + RECORD_SIZE <= |c|
  {
    var n := BinaryFaceCount(c);
    assert f + 1 <= n;
    assert RECORD_SIZE * (f + 1) <= RECORD_SIZE * n;
  }

  /** `_parse_vector(position)`: three floats at `position`, `+4` and `+8`. */
  function ParseVector(c: Bytes, position: nat, decode: FloatDecoder): Vec3
    requires position + 12 <= |c|
  {
    Vec3(decode(c[position..position + 4]),
         decode(c[position + 4..position + 8]),
         decode(c[position + 8..position + 12]))
  }

  /** The `i`-th vertex of the file: vertex `i % 3 + 1` of face `i / 3`. */
  function BinaryVertex(c: Bytes, i: nat, decode: FloatDecoder): Vec3
    requires i < 3 * RecordsRead(c)
  {
    RecordLayout(c, i / 3, i % 3 + 1, 2);
    ParseVector(c, VertexOffset(i / 3, i % 3 + 1), decode)
  }

  /** `StlBinImporter` construction followed by `import_contents`.  It never
      reads past the end of the contents.  For contents shorter than the
      84-byte header the face count, and so the requested row count, is
      negative; no record is read and the log records that count as is. */
  function BinaryImport(c: Bytes, tolerance: real, decode: FloatDecoder): (log: MergerLog)
    ensures log.rows == 3 * BinaryFaceCount(c)
    ensures log.tolerance == tolerance
    ensures AddsThenFinalize(log.calls)
    ensures |log.calls| == 3 * RecordsRead(c) + 1
  {
    var vs := seq(3 * RecordsRead(c), i requires 0 <= i < 3 * RecordsRead(c) => BinaryVertex(c, i, decode));
    MergerLog(3 * BinaryFaceCount(c), tolerance, AddAllThenFinalize(vs))
  }

  /** The importer's loop: `byte_idx` starts at 84 and advances by 50 per
      face; the three vertices sit 12, 24 and 36 bytes into the record. */
  method ImportBinaryLoop(c: Bytes, tolerance: real, decode: FloatDecoder) returns (log: MergerLog)
    ensures log == BinaryImport(c, tolerance, decode)
    ensures forall i | 0 <= i < 3 * RecordsRead(c) :: log.calls[i] == Add(BinaryVertex(c, i, decode))
  {
    var n := RecordsRead(c);
    var vs: seq<Vec3> := [];
    var byteIdx := HEADER_SIZE;
    var f := 0;
    while f < n
      invariant 0 <= f <= n
      invariant byteIdx == RecordStart(f)
      invariant |vs| == 3 * f
      invariant forall i | 0 <= i < |vs| :: vs[i] == BinaryVertex(c, i, decode)
    {
      var j := 1;
      while j < 4
        invariant 1 <= j <= 4
        invariant |vs| == 3 * f + j - 1
        invariant forall i | 0 <= i < |vs| :: vs[i] == BinaryVertex(c, i, decode)
      {
        RecordLayout(c, f, j, 2);
        var v := ParseVector(c, byteIdx + 12 * j, decode);
        assert (3 * f + j - 1) / 3 == f && (3 * f + j - 1) % 3 + 1 == j;
        vs := vs + [v];
        j := j + 1;
      }
      byteIdx := byteIdx + RECORD_SIZE;
      f := f + 1;
    }
    log := MergerLog(3 * BinaryFaceCount(c), tolerance, AddAllThenFinalize(vs));
    assert vs == seq(3 * n, i requires 0 <= i < 3 * n => BinaryVertex(c, i, decode));
  }
}
