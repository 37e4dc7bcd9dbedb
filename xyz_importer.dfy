/**
 * The first-line format check and the frame scan of the XYZ file importer
 * (src/plugins/particles/importer/xyz/XYZImporter.cpp).
 *
 * A line buffer is a C string: the characters up to the first NUL, or up
 * to the end of the buffer when it holds none.
 */
module XYZ {
  import opened Wrappers
  import opened FrameSources
  import opened Arithmetic

  // ---------------------------------------------------------------------
  // Characters and C strings

  /** isspace in the C locale: space, \t, \n, \v, \f and \r. */
  predicate IsSpace(c: char)
  {
    c == ' ' || c == '\t' || c == '\n' || c == '\r' || c as int == 11 || c as int == 12
  }

  /** isdigit. */
  predicate IsDigit(c: char)
  {
    '0' <= c <= '9'
  }

  /** The character at p of a buffer that is NUL-padded past its end. */
  function CharAt(buf: seq<char>, p: nat): char
  {
    if p < |buf| then buf[p] else '\0'
  }

  /** The index of the first NUL at or after i, or the end of the buffer. */
  function NulFrom(buf: seq<char>, i: nat): (n: nat)
    requires i <= |buf|
    ensures i <= n <= |buf|
    ensures forall k :: i <= k < n ==> buf[k] != '\0'
    ensures n < |buf| ==> buf[n] == '\0'
    decreases |buf| - i
  {
    if i == |buf| || buf[i] == '\0' then i else NulFrom(buf, i + 1)
  }

  /** The C string a buffer holds: everything before its first NUL. */
  function CString(buf: seq<char>): (cs: seq<char>)
    ensures |cs| <= |buf|
    ensures forall k :: 0 <= k < |cs| ==> cs[k] == buf[k] && cs[k] != '\0'
    ensures CharAt(buf, |cs|) == '\0'
  {
    buf[..NulFrom(buf, 0)]
  }

  /** Up to its terminating NUL, a buffer reads as its C string. */
  lemma CharAtCString(buf: seq<char>, p: nat)
    requires p <= |CString(buf)|
    ensures CharAt(buf, p) == if p < |CString(buf)| then CString(buf)[p] else '\0'
  {
  }

  /** The first position from i on that does not hold whitespace (or the end). */
  function SkipSpaces(cs: seq<char>, i: nat): (r: nat)
    requires i <= |cs|
    ensures i <= r <= |cs|
    ensures forall k :: i <= k < r ==> IsSpace(cs[k])
    ensures r < |cs| ==> !IsSpace(cs[r])
    decreases |cs| - i
  {
    if i < |cs| && IsSpace(cs[i]) then SkipSpaces(cs, i + 1) else i
  }

  /** The first position from i on that does not hold a digit (or the end). */
  function SkipDigits(cs: seq<char>, i: nat): (r: nat)
    requires i <= |cs|
    ensures i <= r <= |cs|
    ensures forall k :: i <= k < r ==> IsDigit(cs[k])
    ensures r < |cs| ==> !IsDigit(cs[r])
    decreases |cs| - i
  {
    if i < |cs| && IsDigit(cs[i]) then SkipDigits(cs, i + 1) else i
  }

  /** Any position with SkipSpaces's two properties is the one it returns. */
  lemma {:induction false} SkipSpacesAt(cs: seq<char>, i: nat, r: nat)
    requires i <= r <= |cs|
    requires forall k :: i <= k < r ==> IsSpace(cs[k])
    requires r < |cs| ==> !IsSpace(cs[r])
    ensures SkipSpaces(cs, i) == r
    decreases r - i
  {
    if i < r {
      SkipSpacesAt(cs, i + 1, r);
    }
  }

  lemma {:induction false} SkipDigitsAt(cs: seq<char>, i: nat, r: nat)
    requires i <= r <= |cs|
    requires forall k :: i <= k < r ==> IsDigit(cs[k])
    requires r < |cs| ==> !IsDigit(cs[r])
    ensures SkipDigits(cs, i) == r
    decreases r - i
  {
    if i < r {
      SkipDigitsAt(cs, i + 1, r);
    }
  }

  predicate AllSpace(s: seq<char>)
  {
    forall k :: 0 <= k < |s| ==> IsSpace(s[k])
  }

  predicate AllDigits(s: seq<char>)
  {
    forall k :: 0 <= k < |s| ==> IsDigit(s[k])
  }

  /** A particle-count line: whitespace, one or more digits, whitespace. */
  predicate CountLine(cs: seq<char>)
  {
    exists i, j :: 0 <= i < j <= |cs| && AllSpace(cs[..i]) && AllDigits(cs[i..j]) && AllSpace(cs[j..])
  }

  /**
   * The decomposition of a count line is the one the scanning loops find:
   * the whitespace ends at the first non-space, the digits at the first
   * non-digit after it.
   */
  lemma CountLineScan(cs: seq<char>)
    ensures CountLine(cs) <==>
      (var p := SkipSpaces(cs, 0);
       var q := SkipDigits(cs, p);
       p < q && AllSpace(cs[q..]))
  {
    if CountLine(cs) {
      var i, j :| 0 <= i < j <= |cs| && AllSpace(cs[..i]) && AllDigits(cs[i..j]) && AllSpace(cs[j..]);
      CountLineFound(cs, i, j);
    }
    var p := SkipSpaces(cs, 0);
    var q := SkipDigits(cs, p);
    if p < q && AllSpace(cs[q..]) {
      ScannedCountLine(cs, p, q);
    }
  }

  /** The split a count line is made of is the one the scan finds. */
  lemma CountLineFound(cs: seq<char>, i: nat, j: nat)
    requires i < j <= |cs| && AllSpace(cs[..i]) && AllDigits(cs[i..j]) && AllSpace(cs[j..])
    ensures SkipSpaces(cs, 0) == i && SkipDigits(cs, i) == j
  {
    forall k | 0 <= k < i
      ensures IsSpace(cs[k])
    {
      assert cs[k] == cs[..i][k];
    }
    forall k | i <= k < j
      ensures IsDigit(cs[k])
    {
      assert cs[k] == cs[i..j][k - i];
    }
    SkipSpacesAt(cs, 0, i);
    if j < |cs| {
      assert cs[j] == cs[j..][0];
    }
    SkipDigitsAt(cs, i, j);
  }

  /** What the scan finds is a count line. */
  lemma ScannedCountLine(cs: seq<char>, p: nat, q: nat)
    requires p == SkipSpaces(cs, 0) && q == SkipDigits(cs, p) && p < q && AllSpace(cs[q..])
    ensures CountLine(cs)
  {
    assert AllSpace(cs[..p]) by {
      forall k | 0 <= k < p
        ensures IsSpace(cs[..p][k])
      {
        assert cs[..p][k] == cs[k];
      }
    }
    assert AllDigits(cs[p..q]) by {
      forall k | 0 <= k < q - p
        ensures IsDigit(cs[p..q][k])
      {
        assert cs[p..q][k] == cs[p + k];
      }
    }
  }


  // ---------------------------------------------------------------------
  // checkFileFormat

  /**
   * XYZImporter::checkFileFormat on the first line read from the file:
   * accepted when it is empty or a particle-count line.
   */
  method CheckFileFormat(line: seq<char>) returns (ok: bool)
    ensures ok <==> (CString(line) == [] || CountLine(CString(line)))
  {
    ghost var cs := CString(line);
    CharAtCString(line, 0);
    if CharAt(line, 0) == '\0' {
      return true;
    }
    CountLineScan(cs);
    // Skip initial whitespace. (The source's NUL test inside this loop and
    // the next can never fire: NUL is neither whitespace nor a digit.)
    var p := 0;
    while IsSpace(CharAt(line, p))
      invariant p <= |cs|
      invariant forall k :: 0 <= k < p ==> IsSpace(cs[k])
      decreases |cs| - p
    {
      CharAtCString(line, p);
      p := p + 1;
    }
    CharAtCString(line, p);
    SkipSpacesAt(cs, 0, p);
    if !IsDigit(CharAt(line, p)) {
      return false;
    }
    // Skip digits.
    var start := p;
    while IsDigit(CharAt(line, p))
      invariant start <= p <= |cs|
      invariant forall k :: start <= k < p ==> IsDigit(cs[k])
      decreases |cs| - p
    {
      CharAtCString(line, p);
      p := p + 1;
    }
    CharAtCString(line, p);
    SkipDigitsAt(cs, start, p);
    // Check trailing whitespace.
    var digitsEnd := p;
    while CharAt(line, p) != '\0'
      invariant digitsEnd <= p <= |cs|
      invariant forall k :: digitsEnd <= k < p ==> IsSpace(cs[k])
      decreases |cs| - p
    {
      CharAtCString(line, p);
      if !IsSpace(CharAt(line, p)) {
        assert cs[digitsEnd..][p - digitsEnd] == cs[p];
        return false;
      }
      p := p + 1;
    }
    CharAtCString(line, p);
    assert forall k :: 0 <= k < |cs[digitsEnd..]| ==> cs[digitsEnd..][k] == cs[digitsEnd + k];
    return true;
  }

  // ---------------------------------------------------------------------
  // sscanf(line, "%u", &numParticles)

  const TwoTo31: int := 0x8000_0000
  const TwoTo32: int := 0x1_0000_0000
  const TwoTo64: int := 0x1_0000_0000_0000_0000
  /** ULONG_MAX on a 64-bit platform. */
  const ULongMax: int := TwoTo64 - 1

  function DigitValue(c: char): nat
  {
    if IsDigit(c) then c as int - '0' as int else 0
  }

  /** The decimal value of a run of digits. */
  function DigitsValue(ds: seq<char>): nat
    decreases |ds|
  {
    if ds == [] then 0 else DigitsValue(ds[..|ds| - 1]) * 10 + DigitValue(ds[|ds| - 1])
  }

  /**
   * The unsigned long that strtoul makes of a magnitude and a sign:
   * ULONG_MAX when the magnitude overflows, the magnitude negated modulo
   * 2^64 after a minus sign.
   */
  function StrToULong(negative: bool, magnitude: nat): (u: int)
    ensures 0 <= u <= ULongMax
  {
    if magnitude > ULongMax then ULongMax
    else if negative then (TwoTo64 - magnitude) % TwoTo64
    else magnitude
  }

  /** Storing an unsigned long through an `unsigned int *` and reading it back as an int. */
  function AsInt32(u: int): (v: int)
    requires u >= 0
    ensures -TwoTo31 <= v < TwoTo31
    ensures v % TwoTo32 == u % TwoTo32
  {
    var w := u % TwoTo32;
    if w >= TwoTo31 then w - TwoTo32 else w
  }

  /**
   * sscanf(cs, "%u", &n) as glibc performs it: leading whitespace, an
   * optional sign, then at least one digit; None when nothing converts,
   * otherwise the int that n then holds.
   */
  function ScanUnsigned(cs: seq<char>): Option<int>
  {
    var i := SkipSpaces(cs, 0);
    var signed := i < |cs| && (cs[i] == '+' || cs[i] == '-');
    var j := if signed then i + 1 else i;
    var k := SkipDigits(cs, j);
    if k == j then None
    else Some(AsInt32(StrToULong(signed && cs[i] == '-', DigitsValue(cs[j..k]))))
  }

  /** The largest particle count a frame may declare. */
  const MaxParticles: int := 1000000000

  /** The particle count of a count line, or None when the source rejects it. */
  function ParticleCount(cs: seq<char>): Option<nat>
  {
    var n := ScanUnsigned(cs);
    if n.None? || n.value < 0 || n.value > MaxParticles then None else Some(n.value)
  }

  /**
   * A count line whose digits denote at most 1e9 yields exactly that
   * number of particles.
   */
  lemma ParticleCountOfCountLine(cs: seq<char>)
    requires CountLine(cs)
    ensures var p := SkipSpaces(cs, 0);
            var v := DigitsValue(cs[p..SkipDigits(cs, p)]);
            v <= MaxParticles ==> ParticleCount(cs) == Some(v)
  {
    CountLineScan(cs);
  }

  // ---------------------------------------------------------------------
  // scanFileForTimesteps

  /** One line of the decompressed file: its buffer and its length in bytes, line end included. */
  datatype Line = Line(text: seq<char>, bytes: nat)

  /** How the scan reads a line in count position. */
  datatype LineKind = Blank | Count(n: nat) | BadCount

  /**
   * A blank line (its buffer starts with NUL) ends the scan; otherwise the
   * sscanf conversion and the range check decide.
   */
  function Classify(l: Line): LineKind
  {
    var cs := CString(l.text);
    if cs == [] then Blank
    else match ParticleCount(cs)
      case None => BadCount
      case Some(n) => Count(n)
  }

  /** A line is blank exactly when its buffer starts with NUL or holds nothing. */
  lemma BlankLine(l: Line)
    ensures Classify(l) == Blank <==> CharAt(l.text, 0) == '\0'
  {
  }

  /** Whitespace up to position i, and no whitespace at i, is what SkipSpaces skips. */
  lemma SpacesUpTo(cs: seq<char>, i: nat)
    requires i <= |cs| && AllSpace(cs[..i]) && (i < |cs| ==> !IsSpace(cs[i]))
    ensures SkipSpaces(cs, 0) == i
  {
    assert forall k :: 0 <= k < i ==> cs[..i][k] == cs[k];
    SkipSpacesAt(cs, 0, i);
  }

  /** Digits from i up to j, and no digit at j, is what SkipDigits skips. */
  lemma DigitsUpTo(cs: seq<char>, i: nat, j: nat)
    requires i <= j <= |cs| && AllDigits(cs[i..j]) && (j < |cs| ==> !IsDigit(cs[j]))
    ensures SkipDigits(cs, i) == j
  {
    assert forall k :: i <= k < j ==> cs[i..j][k - i] == cs[k];
    SkipDigitsAt(cs, i, j);
  }

  /**
   * A line that starts with whitespace and then a run of digits worth v,
   * whatever follows the digits. The digits are read modulo 2^32 when they
   * fit an unsigned long. So the line declares v particles when v is at
   * most 1e9, is rejected when v lies above 1e9 and below 2^31, and in
   * general declares v mod 2^32 particles when that is at most 1e9, and is
   * rejected when it is not.
   */
  lemma DigitRunKind(l: Line, i: nat, j: nat)
    requires var cs := CString(l.text);
      i < j <= |cs| && AllSpace(cs[..i]) && AllDigits(cs[i..j]) && (j < |cs| ==> !IsDigit(cs[j]))
    ensures var v := DigitsValue(CString(l.text)[i..j]);
      && (v <= MaxParticles ==> Classify(l) == Count(v))
      && (MaxParticles < v < TwoTo31 ==> Classify(l) == BadCount)
      && (v <= ULongMax && v % TwoTo32 <= MaxParticles ==> Classify(l) == Count(v % TwoTo32))
      && (MaxParticles < v % TwoTo32 ==> Classify(l) == BadCount)
  {
    var cs := CString(l.text);
    var v := DigitsValue(cs[i..j]);
    assert IsDigit(cs[i..j][0]);
    SpacesUpTo(cs, i);
    DigitsUpTo(cs, i, j);
    assert ScanUnsigned(cs) == Some(AsInt32(StrToULong(false, v)));
  }

  /**
   * A minus sign before a run of digits worth v, 0 < v < 2^31, makes
   * sscanf store 2^32 - v, which reads back as the negative count -v: the
   * line is rejected.
   */
  lemma NegativeCountIsBad(l: Line, i: nat, j: nat)
    requires var cs := CString(l.text);
      i + 1 < j <= |cs| && AllSpace(cs[..i]) && cs[i] == '-' && AllDigits(cs[i + 1..j])
      && (j < |cs| ==> !IsDigit(cs[j]))
    requires 0 < DigitsValue(CString(l.text)[i + 1..j]) < TwoTo31
    ensures Classify(l) == BadCount
  {
    var cs := CString(l.text);
    var v := DigitsValue(cs[i + 1..j]);
    SpacesUpTo(cs, i);
    DigitsUpTo(cs, i + 1, j);
    var u := StrToULong(true, v);
    assert u == TwoTo64 - v;
    assert u == (TwoTo32 - 1) * TwoTo32 + (TwoTo32 - v);
    DivModOf(TwoTo32 - 1, TwoTo32, TwoTo32 - v);
    assert AsInt32(u) + v == 0;
    assert ScanUnsigned(cs) == Some(AsInt32(u));
  }

  /** A non-blank line without a digit after its whitespace and optional sign is rejected. */
  lemma NoDigitIsBad(l: Line, i: nat)
    requires var cs := CString(l.text);
      cs != [] && i <= |cs| && AllSpace(cs[..i]) && (i < |cs| ==> !IsSpace(cs[i]))
    requires var cs := CString(l.text);
      var j := if i < |cs| && (cs[i] == '+' || cs[i] == '-') then i + 1 else i;
      j < |cs| ==> !IsDigit(cs[j])
    ensures Classify(l) == BadCount
  {
    var cs := CString(l.text);
    SpacesUpTo(cs, i);
    var j := if i < |cs| && (cs[i] == '+' || cs[i] == '-') then i + 1 else i;
    DigitsUpTo(cs, j, j);
  }

  /** The kind of every line of a file. */
  function Kinds(lines: seq<Line>): (ks: seq<LineKind>)
    ensures |ks| == |lines|
    decreases |lines|
  {
    if lines == [] then [] else [Classify(lines[0])] + Kinds(lines[1..])
  }

  lemma {:induction false} KindAt(lines: seq<Line>, i: nat)
    requires i < |lines|
    ensures Kinds(lines)[i] == Classify(lines[i])
    decreases i
  {
    if i > 0 {
      KindAt(lines[1..], i - 1);
    }
  }

  /** What the scan needs from outside the stream: source URL, file name, time stamp, cancellation. */
  datatype ScanEnv = ScanEnv(sourceUrl: string, fileName: string, lastModified: int, canceled: bool)

  /** How a scan ends: normally, cancelled, or with one of its two exceptions. */
  datatype ScanEnd =
    | Completed
    | Canceled
    | InvalidCount(lineNumber: nat)
    | UnexpectedEof

  datatype ScanResult = ScanResult(frames: seq<FrameSourceInformation>, end: ScanEnd)

  /** Where the scan goes after a frame's lines: on to the next count line, or to an end. */
  datatype Skip = Next(pos: nat) | Stopped(end: ScanEnd)

  /**
   * Skipping the comment line at `comment` and n atom lines in a file of
   * `count` lines: reading past the last line is an error, and a
   * cancellation is noticed right after the first atom line.
   */
  function SkipFrame(count: nat, comment: nat, n: nat, canceled: bool): (r: Skip)
    ensures r.Next? ==> r.pos == comment + 1 + n <= count && !(n > 0 && canceled)
    ensures r.Stopped? ==> r.end == UnexpectedEof || r.end == Canceled
    ensures r == Stopped(Canceled) <==> comment + 1 < count && n > 0 && canceled
  {
    if comment >= count then Stopped(UnexpectedEof)
    else if n > 0 && canceled then
      (if comment + 1 >= count then Stopped(UnexpectedEof) else Stopped(Canceled))
    else if comment + 1 + n > count then Stopped(UnexpectedEof)
    else Next(comment + 1 + n)
  }

  /** The byte offset of line `pos`: the lengths of the lines before it. */
  function BytesBefore(lines: seq<Line>, pos: nat): nat
    requires pos <= |lines|
  {
    if pos == 0 then 0 else BytesBefore(lines, pos - 1) + lines[pos - 1].bytes
  }

  function FrameAt(lines: seq<Line>, pos: nat, frameNumber: nat, env: ScanEnv): FrameSourceInformation
    requires pos < |lines|
  {
    FrameSourceInformation(env.sourceUrl, BytesBefore(lines, pos), pos + 1, env.lastModified,
                           FrameLabel(env.fileName, frameNumber))
  }

  /**
   * The frames found from line `pos` on, numbering from frameNumber, given
   * the kind of every line: a frame is a count line, a comment line and
   * that many atom lines. A blank count line or the end of the file ends
   * the scan; cancellation is noticed after the first atom line of a frame.
   */
  function ScanFrom(lines: seq<Line>, kinds: seq<LineKind>, pos: nat, frameNumber: nat, env: ScanEnv): ScanResult
    requires |kinds| == |lines|
    decreases |lines| - pos
  {
    if pos >= |lines| then ScanResult([], Completed)
    else match kinds[pos]
      case Blank => ScanResult([], Completed)
      case BadCount => ScanResult([], InvalidCount(pos + 1))
      case Count(n) =>
        var frame := FrameAt(lines, pos, frameNumber, env);
        match SkipFrame(|lines|, pos + 1, n, env.canceled)
        case Stopped(e) => ScanResult([frame], e)
        case Next(next) =>
          var rest := ScanFrom(lines, kinds, next, frameNumber + 1, env);
          ScanResult([frame] + rest.frames, rest.end)
  }

  /** The frames of a whole file. */
  function Scan(lines: seq<Line>, env: ScanEnv): ScanResult
  {
    ScanFrom(lines, Kinds(lines), 0, 0, env)
  }

  /**
   * The comment line and the atom lines of a frame, read one by one from
   * line `comment` on, checking for cancellation every 4096 atom lines.
   */
  method SkipFrameLines(lines: seq<Line>, comment: nat, n: nat, canceled: bool, byteOffset: nat)
    returns (r: Skip, offset: nat)
    requires comment <= |lines| && byteOffset == BytesBefore(lines, comment)
    ensures r == SkipFrame(|lines|, comment, n, canceled)
    ensures r.Next? ==> offset == BytesBefore(lines, r.pos)
  {
    // Skip comment line.
    if comment >= |lines| {
      return Stopped(UnexpectedEof), byteOffset;
    }
    offset := byteOffset + lines[comment].bytes;
    var pos := comment + 1;
    // Skip atom lines.
    for i := 0 to n
      invariant pos == comment + 1 + i <= |lines|
      invariant offset == BytesBefore(lines, pos)
      invariant i > 0 ==> !canceled
    {
      if pos >= |lines| {
        return Stopped(UnexpectedEof), offset;
      }
      offset := offset + lines[pos].bytes;
      pos := pos + 1;
      if i % 4096 == 0 && canceled {
        return Stopped(Canceled), offset;
      }
    }
    r := Next(pos);
  }

  /**
   * XYZImporter::scanFileForTimesteps: reads the lines one by one,
   * appending a frame record per count line.
   */
  method ScanFileForTimesteps(lines: seq<Line>, env: ScanEnv) returns (frames: seq<FrameSourceInformation>, end: ScanEnd)
    ensures ScanResult(frames, end) == Scan(lines, env)
  {
    ghost var kinds := Kinds(lines);
    frames := [];
    var frameNumber := 0;
    var pos := 0;  // the stream position: the index of the next line to read
    var byteOffset := 0;
    while pos < |lines|
      invariant pos <= |lines| && byteOffset == BytesBefore(lines, pos)
      invariant frames + ScanFrom(lines, kinds, pos, frameNumber, env).frames == Scan(lines, env).frames
      invariant ScanFrom(lines, kinds, pos, frameNumber, env).end == Scan(lines, env).end
      decreases |lines| - pos
    {
      var countOffset := byteOffset;
      var startLineNumber := pos + 1;
      KindAt(lines, pos);
      var kind := Classify(lines[pos]);
      if kind == Blank {
        return frames, Completed;
      }
      if kind == BadCount {
        return frames, InvalidCount(startLineNumber);
      }
      frames := frames + [FrameSourceInformation(env.sourceUrl, countOffset, startLineNumber, env.lastModified,
                                                 FrameLabel(env.fileName, frameNumber))];
      frameNumber := frameNumber + 1;
      var skip;
      skip, byteOffset := SkipFrameLines(lines, pos + 1, kind.n, env.canceled, byteOffset + lines[pos].bytes);
      if skip.Stopped? {
        return frames, skip.end;
      }
      pos := skip.pos;
    }
    return frames, Completed;
  }

  // ---------------------------------------------------------------------
  // Properties of the scan

  /** Frame labels count up from frameNumber without gaps. */
  lemma {:induction false} LabelsFrom(lines: seq<Line>, kinds: seq<LineKind>, pos: nat, frameNumber: nat, env: ScanEnv)
    requires |kinds| == |lines|
    ensures var fs := ScanFrom(lines, kinds, pos, frameNumber, env).frames;
            forall k :: 0 <= k < |fs| ==> fs[k].frameLabel == FrameLabel(env.fileName, frameNumber + k)
    decreases |lines| - pos
  {
    if pos < |lines| && kinds[pos].Count? {
      var n := kinds[pos].n;
      if SkipFrame(|lines|, pos + 1, n, env.canceled).Next? {
        LabelsFrom(lines, kinds, pos + 2 + n, frameNumber + 1, env);
        var rest := ScanFrom(lines, kinds, pos + 2 + n, frameNumber + 1, env).frames;
        assert var fs' := ScanFrom(lines, kinds, pos + 2 + n, frameNumber + 1, env).frames;
          forall k :: 0 <= k < |fs'| ==> fs'[k].frameLabel == FrameLabel(env.fileName, (frameNumber + 1) + k);
        var fs := [FrameAt(lines, pos, frameNumber, env)] + rest;
        assert ScanFrom(lines, kinds, pos, frameNumber, env).frames == fs;
        assert forall k :: 1 <= k < |fs| ==> fs[k] == rest[k - 1];
      }
    }
  }

  /** The frames of a file are labelled "<file name> (Frame k)" for k = 0, 1, 2, … */
  lemma FrameLabelsConsecutive(lines: seq<Line>, env: ScanEnv)
    ensures var fs := Scan(lines, env).frames;
            forall k :: 0 <= k < |fs| ==> fs[k].frameLabel == FrameLabel(env.fileName, k)
  {
    LabelsFrom(lines, Kinds(lines), 0, 0, env);
    assert var fs := ScanFrom(lines, Kinds(lines), 0, 0, env).frames;
      forall k :: 0 <= k < |fs| ==> fs[k].frameLabel == FrameLabel(env.fileName, 0 + k);
  }

  /** What a frame record says about the count line it was made from. */
  predicate RecordsCountLine(lines: seq<Line>, kinds: seq<LineKind>, f: FrameSourceInformation, env: ScanEnv)
    requires |kinds| == |lines|
  {
    1 <= f.lineNumber <= |lines|
    && f.byteOffset == BytesBefore(lines, f.lineNumber - 1)
    && kinds[f.lineNumber - 1].Count?
    && f.sourceFile == env.sourceUrl && f.lastModificationTime == env.lastModified
  }

  /** The line after a frame: past its count line, its comment line and its atom lines. */
  function FrameEnd(kinds: seq<LineKind>, f: FrameSourceInformation): int
    requires 1 <= f.lineNumber <= |kinds| && kinds[f.lineNumber - 1].Count?
  {
    f.lineNumber + 1 + kinds[f.lineNumber - 1].n
  }

  /**
   * Every frame found from pos on is recorded at a count line, with its
   * 1-based line number and the byte offset of that line; the first is at
   * line pos + 1 and each next one begins where the previous frame ends.
   */
  lemma {:induction false} FramesFrom(lines: seq<Line>, kinds: seq<LineKind>, pos: nat, frameNumber: nat, env: ScanEnv)
    requires |kinds| == |lines|
    ensures var fs := ScanFrom(lines, kinds, pos, frameNumber, env).frames;
            (forall k :: 0 <= k < |fs| ==> RecordsCountLine(lines, kinds, fs[k], env))
            && (|fs| > 0 ==> fs[0].lineNumber == pos + 1)
            && (forall k :: 0 <= k < |fs| - 1 ==> fs[k + 1].lineNumber == FrameEnd(kinds, fs[k]) + 1)
    decreases |lines| - pos
  {
    if pos < |lines| && kinds[pos].Count? {
      var n := kinds[pos].n;
      if SkipFrame(|lines|, pos + 1, n, env.canceled).Next? {
        FramesFrom(lines, kinds, pos + 2 + n, frameNumber + 1, env);
        var rest := ScanFrom(lines, kinds, pos + 2 + n, frameNumber + 1, env).frames;
        var fs := [FrameAt(lines, pos, frameNumber, env)] + rest;
        assert ScanFrom(lines, kinds, pos, frameNumber, env).frames == fs;
        assert forall k :: 1 <= k < |fs| ==> fs[k] == rest[k - 1];
      }
    }
  }

  /**
   * The frames of a file: each record names a count line, that is a
   * non-blank line with a particle count in 0..1e9, and that line's byte
   * offset; the first is line 1, and each frame takes its count line, one
   * comment line and its particle count of atom lines.
   */
  lemma FrameRecords(lines: seq<Line>, env: ScanEnv)
    ensures var fs := Scan(lines, env).frames;
            (forall k :: 0 <= k < |fs| ==>
               RecordsCountLine(lines, Kinds(lines), fs[k], env)
               && Classify(lines[fs[k].lineNumber - 1]).Count?)
            && (|fs| > 0 ==> fs[0].lineNumber == 1 && fs[0].byteOffset == 0)
            && (forall k :: 0 <= k < |fs| - 1 ==> fs[k + 1].lineNumber == FrameEnd(Kinds(lines), fs[k]) + 1)
  {
    FramesFrom(lines, Kinds(lines), 0, 0, env);
    var fs := Scan(lines, env).frames;
    forall k | 0 <= k < |fs|
      ensures Classify(lines[fs[k].lineNumber - 1]).Count?
    {
      KindAt(lines, fs[k].lineNumber - 1);
    }
  }

  /**
   * A scan that completes stops at the end of the file or at a blank count
   * line, right after the last frame's atom lines.
   */
  lemma {:induction false} CompletedAtBlankOrEnd(lines: seq<Line>, kinds: seq<LineKind>, pos: nat, frameNumber: nat, env: ScanEnv)
    requires |kinds| == |lines|
    requires ScanFrom(lines, kinds, pos, frameNumber, env).end == Completed
    ensures var fs := ScanFrom(lines, kinds, pos, frameNumber, env).frames;
            fs != [] ==> RecordsCountLine(lines, kinds, fs[|fs| - 1], env)
    ensures var fs := ScanFrom(lines, kinds, pos, frameNumber, env).frames;
            var stop := if fs == [] then pos else FrameEnd(kinds, fs[|fs| - 1]);
            stop >= |lines| || kinds[stop] == Blank
    decreases |lines| - pos
  {
    if pos < |lines| && kinds[pos].Count? {
      var n := kinds[pos].n;
      if SkipFrame(|lines|, pos + 1, n, env.canceled).Next? {
        var rest := ScanFrom(lines, kinds, pos + 2 + n, frameNumber + 1, env).frames;
        CompletedAtBlankOrEnd(lines, kinds, pos + 2 + n, frameNumber + 1, env);
        var fs := [FrameAt(lines, pos, frameNumber, env)] + rest;
        assert ScanFrom(lines, kinds, pos, frameNumber, env).frames == fs;
        FramesFrom(lines, kinds, pos + 2 + n, frameNumber + 1, env);
        if rest != [] {
          assert fs[|fs| - 1] == rest[|rest| - 1];
        }
      }
    }
  }

  /** A file scan that completes ends at the end of the file or at a blank line. */
  lemma ScanCompletes(lines: seq<Line>, env: ScanEnv)
    requires Scan(lines, env).end == Completed
    ensures var fs := Scan(lines, env).frames;
            fs != [] ==> RecordsCountLine(lines, Kinds(lines), fs[|fs| - 1], env)
    ensures var fs := Scan(lines, env).frames;
            var stop := if fs == [] then 0 else FrameEnd(Kinds(lines), fs[|fs| - 1]);
            stop >= |lines| || CString(lines[stop].text) == []
  {
    CompletedAtBlankOrEnd(lines, Kinds(lines), 0, 0, env);
    var fs := Scan(lines, env).frames;
    var stop := if fs == [] then 0 else FrameEnd(Kinds(lines), fs[|fs| - 1]);
    if stop < |lines| {
      KindAt(lines, stop);
    }
  }

  /**
   * An invalid count raises its error naming the offending line, a
   * non-blank line after pos whose count does not parse or exceeds 1e9.
   */
  lemma {:induction false} InvalidCountNamesLine(lines: seq<Line>, kinds: seq<LineKind>, pos: nat, frameNumber: nat, env: ScanEnv)
    requires |kinds| == |lines|
    requires ScanFrom(lines, kinds, pos, frameNumber, env).end.InvalidCount?
    ensures var l := ScanFrom(lines, kinds, pos, frameNumber, env).end.lineNumber;
            pos < l <= |lines| && kinds[l - 1] == BadCount
    decreases |lines| - pos
  {
    if kinds[pos].Count? {
      InvalidCountNamesLine(lines, kinds, pos + 2 + kinds[pos].n, frameNumber + 1, env);
    }
  }

  /** The line an invalid-count error names is non-blank and has no acceptable count. */
  lemma InvalidCountError(lines: seq<Line>, env: ScanEnv)
    requires Scan(lines, env).end.InvalidCount?
    ensures var l := Scan(lines, env).end.lineNumber;
            1 <= l <= |lines|
            && CString(lines[l - 1].text) != []
            && ParticleCount(CString(lines[l - 1].text)).None?
  {
    InvalidCountNamesLine(lines, Kinds(lines), 0, 0, env);
    var l := Scan(lines, env).end.lineNumber;
    KindAt(lines, l - 1);
  }
}
