/**
 * The mesh builder of src/TrianglesDemo.tsx: two text blocks, one vertex
 * per line and one triangle per line, become a `Model`. A malformed line is
 * dropped on its own and never stops the others from being read.
 *
 * ECMAScript `Number()` is not modelled: the caller supplies `num`, the
 * value `Number()` gives a (trimmed) numeric field, and `idx`, the integer
 * a triangle's index field stands for.
 */
module MeshBuilder {
  import opened Wrappers
  import opened Text

  /** R, G, B as JavaScript numbers. */
  datatype Color = Color(r: real, g: real, b: real)

  /** x, y in cell coordinates, z the depth (lower is nearer). */
  datatype Vertex = Vertex(x: real, y: real, z: real, color: Color)

  /** Three 1-based indices into the vertex list. */
  datatype Tri = Tri(v1: int, v2: int, v3: int)

  datatype Model = Model(vertices: seq<Vertex>, tris: seq<Tri>)

  predicate IsByte(v: real) {
    0.0 <= v <= 255.0 && v.Floor as real == v
  }

  /** Every channel is an integer in 0..255. */
  predicate IsByteColor(c: Color) {
    IsByte(c.r) && IsByte(c.g) && IsByte(c.b)
  }

  // ---------------------------------------------------------------- lines

  /** The values of the present entries, in order (`.filter(v => v !== undefined)`). */
  function KeepSome<T(!new)>(xs: seq<Option<T>>): (r: seq<T>)
    ensures |r| <= |xs|
    ensures forall v :: v in r <==> Some(v) in xs
  {
    if |xs| == 0 then []
    else
      var rest := KeepSome(xs[1..]);
      assert forall v :: Some(v) in xs <==> Some(v) == xs[0] || Some(v) in xs[1..];
      if xs[0].Some? then [xs[0].value] + rest else rest
  }

  lemma {:induction false} KeepSomeAppend<T(!new)>(xs: seq<Option<T>>, ys: seq<Option<T>>)
    ensures KeepSome(xs + ys) == KeepSome(xs) + KeepSome(ys)
  {
    if |xs| == 0 {
      assert xs + ys == ys;
    } else {
      assert (xs + ys)[1..] == xs[1..] + ys;
      KeepSomeAppend(xs[1..], ys);
    }
  }

  /** A line survives when it is not empty once trimmed. */
  function NonemptyLine(line: string): Option<string> {
    var t := Trim(line);
    if |t| > 0 then Some(t) else None
  }

  function NonemptyOptions(pieces: seq<string>): seq<Option<string>> {
    seq(|pieces|, k requires 0 <= k < |pieces| => NonemptyLine(pieces[k]))
  }

  /**
   * `nonemptyLines(text)`: split at CRLF, CR or LF, trim every line and drop
   * the lines that are then empty.
   */
  function NonemptyLines(text: string): (r: seq<string>)
    ensures |r| <= |SplitLines(text)|
  {
    KeepSome(NonemptyOptions(SplitLines(text)))
  }

  /** A line that is not empty and neither starts nor ends with whitespace. */
  predicate IsTrimmedLine(t: string) {
    |t| > 0 && !IsWhitespace(t[0]) && !IsWhitespace(t[|t| - 1])
  }

  /** Every line `nonemptyLines` returns is non-empty and trimmed at both ends. */
  lemma NonemptyLinesAreTrimmed(text: string)
    ensures forall k :: 0 <= k < |NonemptyLines(text)| ==> IsTrimmedLine(NonemptyLines(text)[k])
  {
    var pieces := SplitLines(text);
    var opts := NonemptyOptions(pieces);
    forall j | 0 <= j < |opts| && opts[j].Some? ensures IsTrimmedLine(opts[j].value) {
      NonemptyLineTrimmed(pieces[j]);
    }
    KeepSomeTrimmed(opts);
  }

  /** A line that survives is non-empty and trimmed at both ends. */
  lemma NonemptyLineTrimmed(piece: string)
    ensures NonemptyLine(piece).Some? ==> IsTrimmedLine(NonemptyLine(piece).value)
  {}

  lemma KeepSomeTrimmed(opts: seq<Option<string>>)
    requires forall j :: 0 <= j < |opts| && opts[j].Some? ==> IsTrimmedLine(opts[j].value)
    ensures forall k :: 0 <= k < |KeepSome(opts)| ==> IsTrimmedLine(KeepSome(opts)[k])
  {
    var r := KeepSome(opts);
    forall k | 0 <= k < |r| ensures IsTrimmedLine(r[k]) {
      assert r[k] in r;
      var j :| 0 <= j < |opts| && opts[j] == Some(r[k]);
    }
  }

  /** Trimming a line cannot bring in a line break. */
  lemma TrimmedLineHasNoBreaks(piece: string)
    requires '\r' !in piece && '\n' !in piece
    ensures '\r' !in Trim(piece) && '\n' !in Trim(piece)
  {
    var t := Trim(piece);
    var i := LeadingWhitespace(piece);
    assert t == piece[i..i + |t|];
    assert forall c :: c in t ==> c in piece;
  }

  /** No line that `nonemptyLines` returns contains a line break. */
  lemma NonemptyLinesHaveNoBreaks(text: string)
    ensures forall k :: 0 <= k < |NonemptyLines(text)| ==>
      '\r' !in NonemptyLines(text)[k] && '\n' !in NonemptyLines(text)[k]
  {
    var pieces := SplitLines(text);
    var opts := NonemptyOptions(pieces);
    var r := NonemptyLines(text);
    SplitLinesNoBreaks(text);
    forall k | 0 <= k < |r| ensures '\r' !in r[k] && '\n' !in r[k] {
      assert r[k] in r;
      assert Some(r[k]) in opts;
      var j :| 0 <= j < |opts| && opts[j] == Some(r[k]);
      TrimmedLineHasNoBreaks(pieces[j]);
    }
  }

  lemma NonemptyOptionsAppend(xs: seq<string>, ys: seq<string>)
    ensures NonemptyOptions(xs + ys) == NonemptyOptions(xs) + NonemptyOptions(ys)
  {
    var l, r := NonemptyOptions(xs + ys), NonemptyOptions(xs) + NonemptyOptions(ys);
    forall k | 0 <= k < |l| ensures l[k] == r[k] {
      if k < |xs| { assert (xs + ys)[k] == xs[k]; } else { assert (xs + ys)[k] == ys[k - |xs|]; }
    }
  }

  /** Reading the lines of two pieces of text is reading the lines of each. */
  lemma NonemptyLinesOfSplit(text: string, xs: seq<string>, ys: seq<string>)
    requires SplitLines(text) == xs + ys
    ensures NonemptyLines(text) == KeepSome(NonemptyOptions(xs)) + KeepSome(NonemptyOptions(ys))
  {
    NonemptyOptionsAppend(xs, ys);
    KeepSomeAppend(NonemptyOptions(xs), NonemptyOptions(ys));
  }

  /** The last line of `a` ends at the joining LF. */
  lemma SplitLinesBeforeLF(a: string, b: string)
    requires !(|a| > 0 && a[|a| - 1] == '\r')
    ensures SplitLines(a + "\n" + b) == SplitLines(a) + SplitLines(b)
  {
    var sb := SplitLines(b);
    assert SplitLines("\n" + b) == [""] + sb by {
      assert ("\n" + b)[1..] == b;
    }
    assert a + "\n" + b == a + ("\n" + b);
    SplitLinesAppend(a, "\n" + b);
    var sa := SplitLines(a);
    assert sa[|sa| - 1] + "" == sa[|sa| - 1];
    assert sa[..|sa| - 1] + [sa[|sa| - 1] + ""] == sa;
  }

  /** A CR ending `a` and the joining LF form one separator. */
  lemma SplitLinesAfterCR(a': string, b: string)
    ensures SplitLines(a' + "\r" + "\n" + b) == SplitLines(a') + SplitLines(b)
    ensures SplitLines(a' + "\r") == SplitLines(a') + [""]
  {
    var sb := SplitLines(b);
    assert a' + "\r" + "\n" + b == a' + ("\r\n" + b);
    assert SplitLines("\r\n" + b) == [""] + sb by {
      assert ("\r\n" + b)[2..] == b;
    }
    assert SplitLines("\r") == ["", ""];
    SplitLinesAppend(a', "\r\n" + b);
    SplitLinesAppend(a', "\r");
    var sa' := SplitLines(a');
    assert sa'[|sa'| - 1] + "" == sa'[|sa'| - 1];
    assert sa'[..|sa'| - 1] + [sa'[|sa'| - 1] + ""] == sa';
  }

  lemma NonemptyLinesAppendAfterCR(a': string, b: string)
    ensures NonemptyLines(a' + "\r" + "\n" + b) == NonemptyLines(a' + "\r") + NonemptyLines(b)
  {
    SplitLinesAfterCR(a', b);
    var ka := KeepSome(NonemptyOptions(SplitLines(a')));
    NonemptyLinesOfSplit(a' + "\r" + "\n" + b, SplitLines(a'), SplitLines(b));
    NonemptyLinesOfSplit(a' + "\r", SplitLines(a'), [""]);
    assert KeepSome(NonemptyOptions([""])) == [];
    assert NonemptyLines(a' + "\r") == ka + [] == ka;
  }

  /** The lines of `a`, then those of `b`: `nonemptyLines` keeps the input order. */
  lemma NonemptyLinesAppend(a: string, b: string)
    ensures NonemptyLines(a + "\n" + b) == NonemptyLines(a) + NonemptyLines(b)
  {
    if |a| > 0 && a[|a| - 1] == '\r' {
      var a' := a[..|a| - 1];
      assert a == a' + "\r";
      NonemptyLinesAppendAfterCR(a', b);
    } else {
      SplitLinesBeforeLF(a, b);
      NonemptyLinesOfSplit(a + "\n" + b, SplitLines(a), SplitLines(b));
    }
  }

  /** A text without line breaks yields its trimmed self, or nothing when that is empty. */
  lemma NonemptyLinesOfOneLine(s: string)
    requires '\r' !in s && '\n' !in s
    ensures NonemptyLines(s) == if |Trim(s)| > 0 then [Trim(s)] else []
  {
    SplitLinesSingle(s);
    assert NonemptyOptions([s]) == [NonemptyLine(s)];
  }

  // ---------------------------------------------------------------- colours

  /** `\d|[a-f]|[A-F]`: `\d` without the `u` flag is ASCII only. */
  predicate IsHexDigit(c: char) {
    '0' <= c <= '9' || 'a' <= c <= 'f' || 'A' <= c <= 'F'
  }

  function HexValue(c: char): (v: nat)
    requires IsHexDigit(c)
    ensures v < 16
  {
    if '0' <= c <= '9' then c as int - '0' as int
    else if 'a' <= c <= 'f' then c as int - 'a' as int + 10
    else c as int - 'A' as int + 10
  }

  /** `parseInt(hi + lo, 16)` for two hex digits. */
  function PairValue(hi: char, lo: char): (v: nat)
    requires IsHexDigit(hi) && IsHexDigit(lo)
    ensures v <= 255
  {
    16 * HexValue(hi) + HexValue(lo)
  }

  /** The pattern `^#(hex)(hex)(hex)(hex)(hex)(hex)$` with `hex = \d|[a-f]|[A-F]`. */
  predicate IsHexColor(text: string) {
    |text| == 7 && text[0] == '#' && forall k :: 1 <= k < 7 ==> IsHexDigit(text[k])
  }

  /** `toColor(text)`: the three channels of a `#RRGGBB` text, or nothing. */
  function ToColor(text: string): (r: Option<Color>)
    ensures r.Some? <==> IsHexColor(text)
    ensures r.Some? ==> IsByteColor(r.value)
  {
    if |text| == 7 && text[0] == '#'
       && IsHexDigit(text[1]) && IsHexDigit(text[2]) && IsHexDigit(text[3])
       && IsHexDigit(text[4]) && IsHexDigit(text[5]) && IsHexDigit(text[6])
    then
      Some(Color(PairValue(text[1], text[2]) as real,
                 PairValue(text[3], text[4]) as real,
                 PairValue(text[5], text[6]) as real))
    else None
  }

  function LowerChar(c: char): char {
    if 'A' <= c <= 'Z' then (c as int - 'A' as int + 'a' as int) as char else c
  }

  function UpperChar(c: char): char {
    if 'a' <= c <= 'z' then (c as int - 'a' as int + 'A' as int) as char else c
  }

  function MapChars(s: string, f: char -> char): (r: string)
    ensures |r| == |s| && forall k :: 0 <= k < |s| ==> r[k] == f(s[k])
  {
    seq(|s|, k requires 0 <= k < |s| => f(s[k]))
  }

  lemma CaseOfHexDigit(c: char)
    ensures IsHexDigit(LowerChar(c)) <==> IsHexDigit(c)
    ensures IsHexDigit(UpperChar(c)) <==> IsHexDigit(c)
    ensures IsHexDigit(c) ==> HexValue(LowerChar(c)) == HexValue(c) && HexValue(UpperChar(c)) == HexValue(c)
  {}

  /**
   * Upper- and lower-case spellings of a colour give the same channels. The
   * case maps here are ASCII only; the hex digits are all ASCII.
   */
  lemma ToColorCaseInsensitive(text: string)
    ensures ToColor(MapChars(text, LowerChar)) == ToColor(text)
    ensures ToColor(MapChars(text, UpperChar)) == ToColor(text)
  {
    if |text| == 7 {
      forall k | 0 <= k < 7
        ensures IsHexDigit(MapChars(text, LowerChar)[k]) <==> IsHexDigit(text[k])
        ensures IsHexDigit(MapChars(text, UpperChar)[k]) <==> IsHexDigit(text[k])
        ensures IsHexDigit(text[k]) ==> HexValue(MapChars(text, LowerChar)[k]) == HexValue(text[k])
        ensures IsHexDigit(text[k]) ==> HexValue(MapChars(text, UpperChar)[k]) == HexValue(text[k])
      {
        CaseOfHexDigit(text[k]);
      }
      assert MapChars(text, LowerChar)[0] == '#' <==> text[0] == '#';
      assert MapChars(text, UpperChar)[0] == '#' <==> text[0] == '#';
    }
  }

  function HexDigit(n: nat): (c: char)
    requires n < 16
  {
    if n < 10 then ('0' as int + n) as char else ('a' as int + n - 10) as char
  }

  /** `n` as two lower-case hex digits. */
  function HexPair(n: nat): string
    requires n <= 255
  {
    [HexDigit(n / 16), HexDigit(n % 16)]
  }

  /** A colour written as `#rrggbb`. */
  function FormatColor(c: Color): string
    requires IsByteColor(c)
  {
    "#" + HexPair(c.r.Floor) + HexPair(c.g.Floor) + HexPair(c.b.Floor)
  }

  lemma HexPairValue(n: nat)
    requires n <= 255
    ensures IsHexDigit(HexPair(n)[0]) && IsHexDigit(HexPair(n)[1])
    ensures PairValue(HexPair(n)[0], HexPair(n)[1]) == n
  {}

  /** Reading a written colour gives the colour back. */
  lemma ToColorOfFormatColor(c: Color)
    requires IsByteColor(c)
    ensures ToColor(FormatColor(c)) == Some(c)
  {
    HexPairValue(c.r.Floor);
    HexPairValue(c.g.Floor);
    HexPairValue(c.b.Floor);
    var t := FormatColor(c);
    assert t[1..3] == HexPair(c.r.Floor) && t[3..5] == HexPair(c.g.Floor) && t[5..7] == HexPair(c.b.Floor);
  }

  // ---------------------------------------------------------------- vertices and triangles

  /** `line.split(',').map(p => p.trim())`. */
  function Fields(line: string): (r: seq<string>)
    ensures |r| == Count(line, ',') + 1
  {
    var parts := SplitOn(line, ',');
    seq(|parts|, k requires 0 <= k < |parts| => Trim(parts[k]))
  }

  /**
   * `toVertex(line)`: exactly four fields, the last a colour; otherwise
   * nothing. The depth is floored.
   */
  function ToVertex(line: string, num: string -> real): (r: Option<Vertex>)
    ensures r.Some? <==> Count(line, ',') == 3 && IsHexColor(Fields(line)[3])
    ensures r.Some? ==> IsByteColor(r.value.color)
    ensures r.Some? ==> r.value.z.Floor as real == r.value.z &&
                        r.value.z <= num(Fields(line)[2]) < r.value.z + 1.0
    ensures r.Some? ==> r.value.x == num(Fields(line)[0]) && r.value.y == num(Fields(line)[1]) &&
                        ToColor(Fields(line)[3]) == Some(r.value.color)
  {
    var parts := Fields(line);
    if |parts| != 4 then None
    else
      match ToColor(parts[3])
      case None => None
      case Some(color) => Some(Vertex(num(parts[0]), num(parts[1]), num(parts[2]).Floor as real, color))
  }

  /** `toTri(line)`: exactly three fields; otherwise nothing. */
  function ToTri(line: string, idx: string -> int): (r: Option<Tri>)
    ensures r.Some? <==> Count(line, ',') == 2
    ensures r.Some? ==> r.value == Tri(idx(Fields(line)[0]), idx(Fields(line)[1]), idx(Fields(line)[2]))
  {
    var parts := Fields(line);
    if |parts| != 3 then None else Some(Tri(idx(parts[0]), idx(parts[1]), idx(parts[2])))
  }


  lemma TrimOfTrimmed(s: string)
    requires |s| > 0 && !IsWhitespace(s[0]) && !IsWhitespace(s[|s| - 1])
    ensures Trim(s) == s
  {}

  /** A vertex line written from four fields reads back as that vertex. */
  lemma ToVertexOfFields(xs: string, ys: string, zs: string, c: Color, num: string -> real)
    requires ',' !in xs && ',' !in ys && ',' !in zs && IsByteColor(c)
    ensures ToVertex(xs + "," + ys + "," + zs + "," + FormatColor(c), num) ==
            Some(Vertex(num(Trim(xs)), num(Trim(ys)), num(Trim(zs)).Floor as real, c))
  {
    var ct := FormatColor(c);
    assert ',' !in ct;
    var t3 := zs + [','] + ct;
    var t2 := ys + [','] + t3;
    var t1 := xs + [','] + t2;
    assert t1 == xs + "," + ys + "," + zs + "," + ct;
    SplitOnNone(ct, ',');
    SplitOnCons(zs, ',', ct);
    SplitOnCons(ys, ',', t3);
    SplitOnCons(xs, ',', t2);
    assert SplitOn(t1, ',') == [xs, ys, zs, ct];
    TrimOfTrimmed(ct);
    ToColorOfFormatColor(c);
  }

  /** A triangle line written from three comma-free fields reads back as their indices. */
  lemma ToTriOfFields(xs: string, ys: string, zs: string, idx: string -> int)
    requires ',' !in xs && ',' !in ys && ',' !in zs
    ensures ToTri(xs + "," + ys + "," + zs, idx) == Some(Tri(idx(Trim(xs)), idx(Trim(ys)), idx(Trim(zs))))
  {
    var t2 := ys + [','] + zs;
    var t1 := xs + [','] + t2;
    assert t1 == xs + "," + ys + "," + zs;
    SplitOnNone(zs, ',');
    SplitOnCons(ys, ',', zs);
    SplitOnCons(xs, ',', t2);
    assert SplitOn(t1, ',') == [xs, ys, zs];
  }

  // ---------------------------------------------------------------- the model

  function VertexOptions(lines: seq<string>, num: string -> real): seq<Option<Vertex>> {
    seq(|lines|, k requires 0 <= k < |lines| => ToVertex(lines[k], num))
  }

  function TriOptions(lines: seq<string>, idx: string -> int): seq<Option<Tri>> {
    seq(|lines|, k requires 0 <= k < |lines| => ToTri(lines[k], idx))
  }

  lemma VertexOptionsAppend(xs: seq<string>, ys: seq<string>, num: string -> real)
    ensures VertexOptions(xs + ys, num) == VertexOptions(xs, num) + VertexOptions(ys, num)
  {
    var l, r := VertexOptions(xs + ys, num), VertexOptions(xs, num) + VertexOptions(ys, num);
    forall k | 0 <= k < |l| ensures l[k] == r[k] {
      if k < |xs| { assert (xs + ys)[k] == xs[k]; } else { assert (xs + ys)[k] == ys[k - |xs|]; }
    }
  }

  lemma TriOptionsAppend(xs: seq<string>, ys: seq<string>, idx: string -> int)
    ensures TriOptions(xs + ys, idx) == TriOptions(xs, idx) + TriOptions(ys, idx)
  {
    var l, r := TriOptions(xs + ys, idx), TriOptions(xs, idx) + TriOptions(ys, idx);
    forall k | 0 <= k < |l| ensures l[k] == r[k] {
      if k < |xs| { assert (xs + ys)[k] == xs[k]; } else { assert (xs + ys)[k] == ys[k - |xs|]; }
    }
  }

  /** The parsed vertices are exactly the values of the lines that parse. */
  lemma VertexOptionsMembers(lines: seq<string>, num: string -> real)
    ensures forall v :: Some(v) in VertexOptions(lines, num) <==>
      exists line :: line in lines && ToVertex(line, num) == Some(v)
  {
    var opts := VertexOptions(lines, num);
    forall v ensures Some(v) in opts ==> exists line :: line in lines && ToVertex(line, num) == Some(v) {
      if Some(v) in opts {
        var k :| 0 <= k < |lines| && opts[k] == Some(v);
        assert lines[k] in lines;
      }
    }
    forall v, line | line in lines && ToVertex(line, num) == Some(v) ensures Some(v) in opts {
      var k :| 0 <= k < |lines| && lines[k] == line;
      assert opts[k] == Some(v);
    }
  }

  /** The parsed triangles are exactly the values of the lines that parse. */
  lemma TriOptionsMembers(lines: seq<string>, idx: string -> int)
    ensures forall t :: Some(t) in TriOptions(lines, idx) <==>
      exists line :: line in lines && ToTri(line, idx) == Some(t)
  {
    var opts := TriOptions(lines, idx);
    forall t ensures Some(t) in opts ==> exists line :: line in lines && ToTri(line, idx) == Some(t) {
      if Some(t) in opts {
        var k :| 0 <= k < |lines| && opts[k] == Some(t);
        assert lines[k] in lines;
      }
    }
    forall t, line | line in lines && ToTri(line, idx) == Some(t) ensures Some(t) in opts {
      var k :| 0 <= k < |lines| && lines[k] == line;
      assert opts[k] == Some(t);
    }
  }

  /**
   * `constructModel(verticesText, trisText)`: the vertices and triangles of
   * the lines that parse, and no more of each than there are non-empty lines.
   */
  function ConstructModel(verticesText: string, trisText: string,
                          num: string -> real, idx: string -> int): (m: Model)
    ensures |m.vertices| <= |NonemptyLines(verticesText)|
    ensures |m.tris| <= |NonemptyLines(trisText)|
    ensures forall v :: v in m.vertices <==>
      exists line :: line in NonemptyLines(verticesText) && ToVertex(line, num) == Some(v)
    ensures forall t :: t in m.tris <==>
      exists line :: line in NonemptyLines(trisText) && ToTri(line, idx) == Some(t)
  {
    VertexOptionsMembers(NonemptyLines(verticesText), num);
    TriOptionsMembers(NonemptyLines(trisText), idx);
    Model(ParseVertices(verticesText, num), ParseTris(trisText, idx))
  }

  function ParseVertices(text: string, num: string -> real): seq<Vertex> {
    KeepSome(VertexOptions(NonemptyLines(text), num))
  }

  function ParseTris(text: string, idx: string -> int): seq<Tri> {
    KeepSome(TriOptions(NonemptyLines(text), idx))
  }

  lemma ParseVerticesAppend(a: string, b: string, num: string -> real)
    ensures ParseVertices(a + "\n" + b, num) == ParseVertices(a, num) + ParseVertices(b, num)
  {
    NonemptyLinesAppend(a, b);
    var la, lb := NonemptyLines(a), NonemptyLines(b);
    VertexOptionsAppend(la, lb, num);
    KeepSomeAppend(VertexOptions(la, num), VertexOptions(lb, num));
  }

  lemma ParseTrisAppend(a: string, b: string, idx: string -> int)
    ensures ParseTris(a + "\n" + b, idx) == ParseTris(a, idx) + ParseTris(b, idx)
  {
    NonemptyLinesAppend(a, b);
    var la, lb := NonemptyLines(a), NonemptyLines(b);
    TriOptionsAppend(la, lb, idx);
    KeepSomeAppend(TriOptions(la, idx), TriOptions(lb, idx));
  }

  /**
   * Reading two blocks joined by a line break gives the vertices and
   * triangles of the first block followed by those of the second.
   */
  lemma ConstructModelAppend(va: string, vb: string, ta: string, tb: string,
                             num: string -> real, idx: string -> int)
    ensures ConstructModel(va + "\n" + vb, ta + "\n" + tb, num, idx) ==
      Model(ConstructModel(va, ta, num, idx).vertices + ConstructModel(vb, tb, num, idx).vertices,
            ConstructModel(va, ta, num, idx).tris + ConstructModel(vb, tb, num, idx).tris)
  {
    ParseVerticesAppend(va, vb, num);
    ParseTrisAppend(ta, tb, idx);
  }
}
