// multipart/form-data: encoding in memory, writing to a stream, and reading back
// as section 5.1.1 of RFC 2046 has it.
module Multipart {
  import opened Basics
  import opened Sequences

  const CR: Byte := 13
  const LF: Byte := 10
  const DASH: Byte := 45
  const CRLF: seq<Byte> := [CR, LF]

  // ----- The format -----

  function DashBoundary(boundary: seq<Byte>): seq<Byte> {
    [DASH, DASH] + boundary
  }

  // CRLF, two dashes and the boundary.
  function Delimiter(boundary: seq<Byte>): (d: seq<Byte>)
    ensures |d| == |boundary| + 4
  {
    CRLF + DashBoundary(boundary)
  }

  datatype BoundaryType = Initial | Encapsulated | Final

  function BoundaryData(t: BoundaryType, boundary: seq<Byte>): seq<Byte> {
    match t
    case Initial => DashBoundary(boundary) + CRLF
    case Encapsulated => CRLF + DashBoundary(boundary) + CRLF
    case Final => CRLF + DashBoundary(boundary) + [DASH, DASH] + CRLF
  }

  // What follows the dash-boundary of a part: its octets, and the rest.
  function Tail(parts: seq<seq<Byte>>, boundary: seq<Byte>): seq<Byte> {
    if parts == [] then [DASH, DASH] + CRLF
    else CRLF + parts[0] + Delimiter(boundary) + Tail(parts[1..], boundary)
  }

  // A body of one or more parts.
  function Format(parts: seq<seq<Byte>>, boundary: seq<Byte>): seq<Byte> {
    DashBoundary(boundary) + Tail(parts, boundary)
  }

  // ----- Reading it back -----

  predicate OccursAt(pattern: seq<Byte>, s: seq<Byte>, i: nat) {
    i + |pattern| <= |s| && s[i..i + |pattern|] == pattern
  }

  ghost predicate Occurs(pattern: seq<Byte>, s: seq<Byte>) {
    exists i: nat :: OccursAt(pattern, s, i)
  }

  // The first place where the pattern occurs.
  function Find(pattern: seq<Byte>, s: seq<Byte>, from: nat): (r: Option<nat>)
    ensures r.Some? ==> r.value >= from && OccursAt(pattern, s, r.value)
    ensures r.Some? ==> forall j :: from <= j < r.value ==> !OccursAt(pattern, s, j)
    ensures r.None? ==> forall j :: j >= from ==> !OccursAt(pattern, s, j)
    decreases |s| - from
  {
    if from + |pattern| > |s| then None
    else if OccursAt(pattern, s, from) then Some(from)
    else Find(pattern, s, from + 1)
  }

  predicate Closes(s: seq<Byte>) {
    |s| >= 2 && s[0] == DASH && s[1] == DASH
  }

  // A line end, a part up to the next delimiter, and what follows that.
  function NextPart(s: seq<Byte>, boundary: seq<Byte>): (r: Option<(seq<Byte>, seq<Byte>)>)
    ensures r.Some? ==> |r.value.1| < |s|
  {
    if |s| < 2 || s[..2] != CRLF then None
    else
      var d := Delimiter(boundary);
      var end := Find(d, s[2..], 0);
      if end.None? then None else Some((s[2..][..end.value], s[2..][end.value + |d|..]))
  }

  // After a delimiter come two dashes, or a part.
  function ParseTail(s: seq<Byte>, boundary: seq<Byte>): Option<seq<seq<Byte>>>
    decreases |s|
  {
    if Closes(s) then Some([])
    else
      var next := NextPart(s, boundary);
      if next.None? then None
      else
        var rest := ParseTail(next.value.1, boundary);
        if rest.None? then None else Some([next.value.0] + rest.value)
  }

  function Parse(s: seq<Byte>, boundary: seq<Byte>): Option<seq<seq<Byte>>> {
    var d := DashBoundary(boundary);
    if d <= s then ParseTail(s[|d|..], boundary) else None
  }

  // A carriage return only stands at the start of a delimiter, so it cannot
  // overlap itself, and occurs first right behind a part it does not occur in.
  lemma FoundBehind(pattern: seq<Byte>, part: seq<Byte>, rest: seq<Byte>)
    requires pattern != [] && (forall i :: 0 < i < |pattern| ==> pattern[i] != pattern[0])
    requires !Occurs(pattern, part)
    ensures Find(pattern, part + pattern + rest, 0) == Some(|part|)
  {
    var s := part + pattern + rest;
    assert s[|part|..|part| + |pattern|] == pattern;
    assert OccursAt(pattern, s, |part|);
    forall j | 0 <= j < |part|
      ensures !OccursAt(pattern, s, j)
    {
      assert j + |pattern| <= |part| ==> s[j..j + |pattern|] == part[j..j + |pattern|];
      var i: nat := j;
      assert OccursAt(pattern, s, i) && i + |pattern| <= |part| ==> OccursAt(pattern, part, i);
      assert j + |pattern| > |part| && j + |pattern| <= |s| ==> s[j..j + |pattern|][|part| - j] == pattern[0];
    }
  }

  // Otherwise it is found within the part.
  lemma FoundWithin(pattern: seq<Byte>, part: seq<Byte>, rest: seq<Byte>)
    requires Occurs(pattern, part)
    ensures Find(pattern, part + rest, 0).Some? && Find(pattern, part + rest, 0).value + |pattern| <= |part|
  {
    var i: nat :| OccursAt(pattern, part, i);
    assert (part + rest)[i..i + |pattern|] == part[i..i + |pattern|];
    assert OccursAt(pattern, part + rest, i);
  }

  lemma DelimiterStarts(boundary: seq<Byte>)
    requires CR !in boundary
    ensures var d := Delimiter(boundary); d != [] && forall i :: 0 < i < |d| ==> d[i] != d[0]
  {
  }

  lemma ParseBehind(s: seq<Byte>, boundary: seq<Byte>)
    ensures Parse(DashBoundary(boundary) + s, boundary) == ParseTail(s, boundary)
  {
    hide ParseTail;
    var d := DashBoundary(boundary);
    assert (d + s)[|d|..] == s;
  }

  lemma BehindLineEnd(s: seq<Byte>)
    ensures |CRLF + s| >= 2 && (CRLF + s)[..2] == CRLF && (CRLF + s)[2..] == s
  {
  }

  lemma CloseEnds(rest: seq<Byte>, boundary: seq<Byte>)
    ensures ParseTail([DASH, DASH] + CRLF + rest, boundary) == Some([])
  {
    assert ([DASH, DASH] + CRLF + rest)[..2] == [DASH, DASH];
  }

  // A tail of at least one part, with whatever follows it.
  lemma TailUnfold(parts: seq<seq<Byte>>, late: seq<Byte>, boundary: seq<Byte>)
    requires parts != []
    ensures Tail(parts,
                 boundary) + late == CRLF + (parts[0] + Delimiter(boundary) + (Tail(parts[1..], boundary) + late))
  {
    hide Delimiter;
    var part, d, rest := parts[0], Delimiter(boundary), Tail(parts[1..], boundary);
    Associate(CRLF, part, d);
    Associate(CRLF, part + d, rest);
    Associate(CRLF, part + d + rest, late);
    Associate(part + d, rest, late);
  }

  ghost predicate Clean(parts: seq<seq<Byte>>, boundary: seq<Byte>) {
    forall i :: 0 <= i < |parts| ==> !Occurs(Delimiter(boundary), parts[i])
  }

  lemma GoesOn(s: seq<Byte>)
    ensures !Closes(CRLF + s)
  {
    assert (CRLF + s)[0] == CR;
  }

  lemma NextIs(t: seq<Byte>, boundary: seq<Byte>, end: nat)
    requires |t| >= 2 && t[..2] == CRLF && Find(Delimiter(boundary), t[2..], 0) == Some(end)
    ensures end + |Delimiter(boundary)| <= |t[2..]|
    ensures NextPart(t, boundary) == Some((t[2..][..end], t[2..][end + |Delimiter(boundary)|..]))
  {
    assert OccursAt(Delimiter(boundary), t[2..], end);
    hide Find;
    hide Delimiter;
    hide OccursAt;
  }

  lemma ParseStep(s: seq<Byte>, boundary: seq<Byte>, end: nat)
    requires Find(Delimiter(boundary), s, 0) == Some(end)
    ensures end + |Delimiter(boundary)| <= |s|
    ensures var rest := ParseTail(s[end + |Delimiter(boundary)|..], boundary);
      ParseTail(CRLF + s, boundary) == if rest.None? then None else Some([s[..end]] + rest.value)
  {
    GoesOn(s);
    BehindLineEnd(s);
    NextIs(CRLF + s, boundary, end);
    hide Find;
    hide Delimiter;
    hide NextPart;
    hide Closes;
  }

  // A clean part is read whole.
  lemma PartRead(part: seq<Byte>, rest: seq<Byte>, boundary: seq<Byte>)
    requires CR !in boundary && !Occurs(Delimiter(boundary), part)
    ensures var more := ParseTail(rest, boundary);
      ParseTail(CRLF + (part + Delimiter(boundary) + rest), boundary)
      == if more.None? then None else Some([part] + more.value)
  {
    hide *;
    var d := Delimiter(boundary);
    DelimiterStarts(boundary);
    FoundBehind(d, part, rest);
    ParseStep(part + d + rest, boundary, |part|);
    Cut(part, d, rest);
  }

  // A part the delimiter occurs in is cut short.
  lemma PartCutShort(part: seq<Byte>, rest: seq<Byte>, boundary: seq<Byte>)
    requires Occurs(Delimiter(boundary), part)
    ensures var read := ParseTail(CRLF + (part + Delimiter(boundary) + rest), boundary);
      read.Some? ==> read.value != [] && |read.value[0]| < |part|
  {
    hide *;
    var d := Delimiter(boundary);
    Associate(part, d, rest);
    FoundWithin(d, part, d + rest);
    ParseStep(part + d + rest, boundary, Find(d, part + d + rest, 0).value);
  }

  lemma FirstRest<T>(x: T, s: seq<T>)
    ensures ([x] + s)[0] == x && ([x] + s)[1..] == s
  {
  }

  lemma SplitFirst<T>(s: seq<T>, more: seq<T>)
    requires s != []
    ensures s + more == [s[0]] + (s[1..] + more)
  {
  }

  lemma Cut<T>(a: seq<T>, b: seq<T>, c: seq<T>)
    ensures (a + b + c)[..|a|] == a && (a + b + c)[|a| + |b|..] == c
  {
  }

  lemma CleanUnfold(parts: seq<seq<Byte>>, boundary: seq<Byte>)
    requires parts != []
    ensures Clean(parts, boundary) <==> !Occurs(Delimiter(boundary), parts[0]) && Clean(parts[1..], boundary)
  {
    hide Occurs;
    assert forall i :: 1 <= i < |parts| ==> parts[i] == parts[1..][i - 1];
  }

  // Whatever follows the close-delimiter is not read.
  lemma {:induction false} TailRead(parts: seq<seq<Byte>>, late: seq<Byte>, boundary: seq<Byte>)
    requires CR !in boundary && Clean(parts, boundary)
    ensures ParseTail(Tail(parts, boundary) + late, boundary) == Some(parts)
  {
    if parts == [] {
      CloseEnds(late, boundary);
    } else {
      hide *;
      TailUnfold(parts, late, boundary);
      CleanUnfold(parts, boundary);
      TailRead(parts[1..], late, boundary);
      PartRead(parts[0], Tail(parts[1..], boundary) + late, boundary);
      assert parts == [parts[0]] + parts[1..];
    }
  }

  lemma {:induction false} TailUnread(parts: seq<seq<Byte>>, late: seq<Byte>, more: seq<seq<Byte>>, boundary: seq<Byte>)
    requires CR !in boundary && !Clean(parts, boundary)
    ensures ParseTail(Tail(parts, boundary) + late, boundary) != Some(parts + more)
  {
    var first, rest, all := parts[0], Tail(parts[1..], boundary) + late, parts[1..] + more;
    hide *;
    TailUnfold(parts, late, boundary);
    CleanUnfold(parts, boundary);
    SplitFirst(parts, more);
    FirstRest(first, all);
    if Occurs(Delimiter(boundary), first) {
      PartCutShort(first, rest, boundary);
    } else {
      TailUnread(parts[1..], late, more, boundary);
      PartRead(first, rest, boundary);
      if ParseTail(rest, boundary).Some? { FirstRest(first, ParseTail(rest, boundary).value); }
    }
  }

  // Exactly the bodies whose parts are free of the delimiter are read back,
  // whatever follows them.
  lemma RoundTrip(parts: seq<seq<Byte>>, late: seq<Byte>, boundary: seq<Byte>)
    requires CR !in boundary
    ensures Parse(Format(parts, boundary) + late, boundary) == Some(parts) <==> Clean(parts, boundary)
  {
    FormatBehind(parts, late, boundary);
    hide *;
    if Clean(parts, boundary) {
      TailRead(parts, late, boundary);
    } else {
      TailUnread(parts, late, [], boundary);
      NothingAppended(parts);
    }
  }

  lemma FormatBehind(parts: seq<seq<Byte>>, late: seq<Byte>, boundary: seq<Byte>)
    ensures Parse(Format(parts, boundary) + late, boundary) == ParseTail(Tail(parts, boundary) + late, boundary)
  {
    hide DashBoundary;
    hide Tail;
    hide ParseTail;
    Associate(DashBoundary(boundary), Tail(parts, boundary), late);
    ParseBehind(Tail(parts, boundary) + late, boundary);
  }

  // ----- Header blocks -----

  datatype Header = Header(key: seq<Byte>, value: seq<Byte>)

  const COLON_SPACE: seq<Byte> := [58, 32]

  function HeaderLine(h: Header): seq<Byte> {
    h.key + COLON_SPACE + h.value
  }

  // Each header on a line of its own, and an empty line.
  function HeaderText(headers: seq<Header>): seq<Byte> {
    if headers == [] then CRLF else HeaderLine(headers[0]) + CRLF + HeaderText(headers[1..])
  }

  // Lines up to an empty one, and what follows it.
  function ParsePart(s: seq<Byte>): Option<(seq<seq<Byte>>, seq<Byte>)>
    decreases |s|
  {
    var end := Find(CRLF, s, 0);
    if end.None? then None
    else if end.value == 0 then Some(([], s[2..]))
    else
      var rest := ParsePart(s[end.value + 2..]);
      if rest.None? then None else Some(([s[..end.value]] + rest.value.0, rest.value.1))
  }

  function Lines(headers: seq<Header>): seq<seq<Byte>> {
    seq(|headers|, i requires 0 <= i < |headers| => HeaderLine(headers[i]))
  }

  lemma ParsePartStep(s: seq<Byte>, end: nat)
    requires Find(CRLF, s, 0) == Some(end)
    ensures end + 2 <= |s|
    ensures end == 0 ==> ParsePart(s) == Some(([], s[2..]))
    ensures end > 0 ==>
      var rest := ParsePart(s[end + 2..]);
      ParsePart(s) == if rest.None? then None else Some(([s[..end]] + rest.value.0, rest.value.1))
  {
  }

  lemma LineRead(line: seq<Byte>, rest: seq<Byte>)
    requires line != [] && !Occurs(CRLF, line)
    ensures var more := ParsePart(rest);
      ParsePart(line + CRLF + rest) == if more.None? then None else Some(([line] + more.value.0, more.value.1))
  {
    hide Find;
    hide Occurs;
    hide ParsePart;
    CRLFStarts();
    FoundBehind(CRLF, line, rest);
    ParsePartStep(line + CRLF + rest, |line|);
    Cut(line, CRLF, rest);
  }

  lemma LineCutShort(line: seq<Byte>, rest: seq<Byte>)
    requires Occurs(CRLF, line)
    ensures var read := ParsePart(line + CRLF + rest);
      read.Some? && read.value.0 != [] ==> |read.value.0[0]| < |line|
  {
    hide Find;
    hide Occurs;
    hide ParsePart;
    Associate(line, CRLF, rest);
    FoundWithin(CRLF, line, CRLF + rest);
    ParsePartStep(line + CRLF + rest, Find(CRLF, line + CRLF + rest, 0).value);
  }

  lemma CRLFStarts()
    ensures CRLF != [] && forall i :: 0 < i < |CRLF| ==> CRLF[i] != CRLF[0]
  {
  }

  lemma LinesUnfold(headers: seq<Header>)
    requires headers != []
    ensures Lines(headers) == [HeaderLine(headers[0])] + Lines(headers[1..])
    ensures HeaderText(headers) == HeaderLine(headers[0]) + CRLF + HeaderText(headers[1..])
  {
  }

  lemma NoHeaders(body: seq<Byte>)
    ensures ParsePart(CRLF + body) == Some(([], body))
  {
    assert OccursAt(CRLF, CRLF + body, 0);
  }

  // No header line holds a line end.
  ghost predicate Plainly(headers: seq<Header>) {
    forall i :: 0 <= i < |headers| ==> !Occurs(CRLF, HeaderLine(headers[i]))
  }

  lemma PlainlyUnfold(headers: seq<Header>)
    requires headers != []
    ensures Plainly(headers) <==> !Occurs(CRLF, HeaderLine(headers[0])) && Plainly(headers[1..])
  {
    hide Occurs;
    assert forall i :: 1 <= i < |headers| ==> headers[i] == headers[1..][i - 1];
  }

  // Headers and body are told apart again just when no header line holds a line end.
  lemma {:induction false} PartRoundTrip(headers: seq<Header>, body: seq<Byte>)
    ensures ParsePart(HeaderText(headers) + body) == Some((Lines(headers), body)) <==> Plainly(headers)
  {
    if headers == [] {
      hide ParsePart;
      assert Lines(headers) == [];
      NoHeaders(body);
    } else {
      var line, rest := HeaderLine(headers[0]), HeaderText(headers[1..]) + body;
      assert |line| >= 2;
      hide *;
      LinesUnfold(headers);
      PlainlyUnfold(headers);
      Associate(line + CRLF, HeaderText(headers[1..]), body);
      PartRoundTrip(headers[1..], body);
      if Occurs(CRLF, line) {
        LineCutShort(line, rest);
      } else {
        LineRead(line, rest);
        FirstRest(line, Lines(headers[1..]));
        if ParsePart(rest).Some? { FirstRest(line, ParsePart(rest).value.0); }
      }
    }
  }

  // ----- Headers read back -----

  // A header line is cut at its first colon and space.
  function ReadHeader(line: seq<Byte>): Option<Header> {
    var cut := Find([58, 32], line, 0);
    if cut.None? then None else Some(Header(line[..cut.value], line[cut.value + 2..]))
  }

  function ReadHeaders(lines: seq<seq<Byte>>): Option<seq<Header>> {
    if lines == [] then Some([])
    else
      var first, rest := ReadHeader(lines[0]), ReadHeaders(lines[1..]);
      if first.None? || rest.None? then None else Some([first.value] + rest.value)
  }

  // A part as its headers and its body.
  datatype Form = Form(headers: seq<Header>, body: seq<Byte>)

  function ReadPart(s: seq<Byte>): Option<Form> {
    var part := ParsePart(s);
    if part.None? then None
    else
      var headers := ReadHeaders(part.value.0);
      if headers.None? then None else Some(Form(headers.value, part.value.1))
  }

  // No key holds the two bytes a line is cut at.
  ghost predicate Cuttable(headers: seq<Header>) {
    forall i :: 0 <= i < |headers| ==> !Occurs([58, 32], headers[i].key)
  }

  // A line is its key, a colon, a space and its value.
  lemma LineIsRead(h: Header)
    ensures ReadHeader(HeaderLine(h)) == Some(h) <==> !Occurs([58, 32], h.key)
  {
    var line := HeaderLine(h);
    assert line == h.key + [58, 32] + h.value;
    assert line == h.key + ([58, 32] + h.value);
    if Occurs([58, 32], h.key) {
      FoundWithin([58, 32], h.key, [58, 32] + h.value);
    } else {
      FoundBehind([58, 32], h.key, h.value);
    }
    hide Find;
    hide Occurs;
  }

  lemma ReadIsLine(line: seq<Byte>, h: Header)
    requires ReadHeader(line) == Some(h)
    ensures line == HeaderLine(h)
  {
    var cut := Find([58, 32], line, 0).value;
    assert line[cut..cut + 2] == [58, 32];
    assert line == line[..cut] + line[cut..cut + 2] + line[cut + 2..];
  }

  lemma {:induction false} ReadAreLines(lines: seq<seq<Byte>>, headers: seq<Header>)
    requires ReadHeaders(lines) == Some(headers)
    ensures lines == Lines(headers)
  {
    if lines != [] {
      ReadIsLine(lines[0], headers[0]);
      ReadAreLines(lines[1..], headers[1..]);
      LinesUnfold(headers);
    }
  }

  lemma CuttableUnfold(headers: seq<Header>)
    requires headers != []
    ensures Cuttable(headers) <==> !Occurs([58, 32], headers[0].key) && Cuttable(headers[1..])
  {
    hide Occurs;
    assert forall i :: 1 <= i < |headers| ==> headers[i] == headers[1..][i - 1];
  }

  lemma {:induction false} LinesAreRead(headers: seq<Header>)
    ensures ReadHeaders(Lines(headers)) == Some(headers) <==> Cuttable(headers)
  {
    if headers == [] {
      assert Lines(headers) == [];
    } else {
      LinesUnfold(headers);
      LineIsRead(headers[0]);
      LinesAreRead(headers[1..]);
      CuttableUnfold(headers);
      hide Cuttable;
      hide Occurs;
      hide ReadHeader;
      assert Lines(headers)[0] == HeaderLine(headers[0]) && Lines(headers)[1..] == Lines(headers[1..]);
      assert headers == [headers[0]] + headers[1..];
    }
  }

  // Exactly the parts without line ends in their headers, nor colon and space in a
  // header's key, are read back: the same keys with the same values, and the body.
  lemma PartReadBack(form: Form)
    ensures ReadPart(HeaderText(form.headers) + form.body) == Some(form)
       <==> Plainly(form.headers) && Cuttable(form.headers)
  {
    var s := HeaderText(form.headers) + form.body;
    PartRoundTrip(form.headers, form.body);
    LinesAreRead(form.headers);
    hide ParsePart;
    hide Plainly;
    hide Cuttable;
    hide Lines;
    hide HeaderText;
    if ReadPart(s) == Some(form) { ReadAreLines(ParsePart(s).value.0, form.headers); }
  }

  // What is read as headers and body was made of these.
  lemma {:induction false} ParsedIsText(s: seq<Byte>, headers: seq<Header>, body: seq<Byte>)
    requires ParsePart(s) == Some((Lines(headers), body))
    ensures s == HeaderText(headers) + body
    decreases |s|
  {
    var end := Find(CRLF, s, 0);
    assert s[end.value..end.value + 2] == CRLF;
    assert s == s[..end.value] + CRLF + s[end.value + 2..];
    assert |Lines(headers)| == |headers|;
    if end.value == 0 {
      assert headers == [];
    } else {
      var line, rest := s[..end.value], s[end.value + 2..];
      assert |Lines(headers)| == 1 + |ParsePart(rest).value.0|;
      LinesUnfold(headers);
      assert Lines(headers)[0] == line && Lines(headers)[1..] == Lines(headers[1..]);
      ParsedIsText(rest, headers[1..], body);
      Associate(line + CRLF, HeaderText(headers[1..]), body);
    }
  }

  lemma PartIsText(s: seq<Byte>, form: Form)
    requires ReadPart(s) == Some(form)
    ensures s == HeaderText(form.headers) + form.body
  {
    ReadAreLines(ParsePart(s).value.0, form.headers);
    ParsedIsText(s, form.headers, form.body);
  }

  // ----- Streams -----

  class InputStream {
    var rest: seq<Byte>   // what has not been read

    constructor (content: seq<Byte>)
      ensures rest == content
    {
      rest := content;
    }

    // At least one byte while there are any, in portions of any size.
    method Read(maxLength: nat) returns (buffer: seq<Byte>)
      requires maxLength > 0
      modifies this
      ensures |buffer| <= maxLength && old(rest) == buffer + rest && (buffer == [] ==> rest == [])
    {
      var n: nat :| n <= maxLength && n <= |rest| && (n == 0 ==> rest == []);
      buffer := rest[..n];
      rest := rest[n..];
    }
  }

  class OutputStream {
    const capacity: nat
    var bytes: seq<Byte>

    constructor (capacity: nat)
      ensures this.capacity == capacity && bytes == []
    {
      this.capacity, bytes := capacity, [];
    }

    predicate HasSpaceAvailable()
      reads this
    {
      |bytes| < capacity
    }

    // Takes at least one byte, and as many as it likes.
    method Write(buffer: seq<Byte>) returns (n: nat)
      requires buffer != [] && HasSpaceAvailable()
      modifies this
      ensures 0 < n <= |buffer| && |bytes| <= capacity && bytes == old(bytes) + buffer[..n]
    {
      n :| 0 < n <= |buffer| && |bytes| + n <= capacity;
      bytes := bytes + buffer[..n];
    }
  }

  // What arrives of some bytes: all of them, if there is room.
  function Fit(bytes: seq<Byte>, capacity: nat): seq<Byte> {
    if |bytes| <= capacity then bytes else bytes[..capacity]
  }

  lemma FitTwice(a: seq<Byte>, b: seq<Byte>, capacity: nat)
    ensures Fit(Fit(a, capacity) + b, capacity) == Fit(a + b, capacity)
  {
  }

  // ----- The encoder -----

  // A part as the encoders see it.
  datatype Piece = Piece(initial: bool, final: bool, octets: seq<Byte>)

  function PieceText(p: Piece, boundary: seq<Byte>): seq<Byte> {
    BoundaryData(if p.initial then Initial else Encapsulated, boundary) + p.octets
    + if p.final then BoundaryData(Final, boundary) else []
  }

  function Text(ps: seq<Piece>, boundary: seq<Byte>): seq<Byte> {
    if ps == [] then [] else Text(ps[..|ps| - 1], boundary) + PieceText(ps[|ps| - 1], boundary)
  }

  // The first part opens and the last part closes the body.
  function Flagged(ps: seq<Piece>): (r: seq<Piece>)
    ensures |r| == |ps|
  {
    seq(|ps|, i requires 0 <= i < |ps| =>
      ps[i].(initial := ps[i].initial || i == 0, final := ps[i].final || i == |ps| - 1))
  }

  class BodyPart {
    const headers: seq<Header>
    const bodyStream: InputStream
    var hasInitialBoundary: bool
    var hasFinalBoundary: bool

    constructor (headers: seq<Header>, bodyStream: InputStream)
      ensures this.headers == headers && this.bodyStream == bodyStream && !hasInitialBoundary && !hasFinalBoundary
    {
      this.headers, this.bodyStream, hasInitialBoundary, hasFinalBoundary := headers, bodyStream, false, false;
    }

    ghost function AsPiece(): Piece
      reads this, bodyStream
    {
      Piece(hasInitialBoundary, hasFinalBoundary, HeaderText(headers) + bodyStream.rest)
    }

    method EncodeHeaders() returns (text: seq<Byte>)
      ensures text == HeaderText(headers)
    {
      text := [];
      for i := 0 to |headers|
        invariant text + HeaderText(headers[i..]) == HeaderText(headers)
      {
        HeaderTextUnfold(headers, i);
        Associate(text, HeaderLine(headers[i]) + CRLF, HeaderText(headers[i + 1..]));
        text := text + (HeaderLine(headers[i]) + CRLF);
      }
      text := text + CRLF;
    }
  }

  lemma HeaderTextUnfold(headers: seq<Header>, i: nat)
    requires i < |headers|
    ensures HeaderText(headers[i..]) == HeaderLine(headers[i]) + CRLF + HeaderText(headers[i + 1..])
  {
    assert headers[i..][1..] == headers[i + 1..];
  }

  class MultipartFormData {
    const boundary: seq<Byte>
    const streamBufferSize := 1024
    var bodyParts: seq<BodyPart>

    constructor (boundary: seq<Byte>)
      ensures Valid() && this.boundary == boundary && bodyParts == []
    {
      this.boundary := boundary;
      bodyParts := [];
    }

    // Every part is a part of its own, and reads a stream of its own.
    ghost predicate Valid()
      reads this`bodyParts
    {
      forall i, j :: 0 <= i < j < |bodyParts|
        ==> bodyParts[i] != bodyParts[j] && bodyParts[i].bodyStream != bodyParts[j].bodyStream
    }

    ghost function Streams(): set<InputStream>
      reads this`bodyParts
    {
      set p | p in bodyParts :: p.bodyStream
    }

    ghost function Pieces(): (ps: seq<Piece>)
      reads this, bodyParts, Streams()
      ensures |ps| == |bodyParts|
    {
      seq(|bodyParts|, i requires 0 <= i < |bodyParts| reads this, bodyParts, Streams() => bodyParts[i].AsPiece())
    }

    // Headers and body of each part, as its encoding will have them.
    ghost function Forms(): (forms: seq<Form>)
      reads this, bodyParts, Streams()
      ensures TextsOf(Octets(Pieces()), forms)
    {
      seq(|bodyParts|, i requires 0 <= i < |bodyParts| reads this, bodyParts, Streams() =>
        Form(bodyParts[i].headers, bodyParts[i].bodyStream.rest))
    }

    method Append(part: BodyPart)
      requires Valid() && part !in bodyParts && part.bodyStream !in Streams()
      modifies this
      ensures Valid() && bodyParts == old(bodyParts) + [part]
    {
      bodyParts := bodyParts + [part];
    }

    // ----- In memory -----

    method EncodeBodyStream(inputStream: InputStream) returns (encoded: seq<Byte>)
      modifies inputStream
      ensures encoded == old(inputStream.rest) && inputStream.rest == []
    {
      encoded := [];
      NothingAppended(inputStream.rest);
      while true
        invariant encoded + inputStream.rest == old(inputStream.rest)
        decreases |inputStream.rest|
      {
        ghost var left := inputStream.rest;
        var buffer := inputStream.Read(streamBufferSize);
        if buffer == [] { break; }
        Associate(encoded, buffer, inputStream.rest);
        encoded := encoded + buffer;
      }
    }

    method EncodePart(p: BodyPart) returns (encoded: seq<Byte>)
      modifies p.bodyStream
      ensures encoded == PieceText(old(p.AsPiece()), boundary) && p.bodyStream.rest == []
    {
      encoded := BoundaryData(if p.hasInitialBoundary then Initial else Encapsulated, boundary);
      ghost var start := encoded;
      var headerData := p.EncodeHeaders();
      encoded := encoded + headerData;
      var bodyStreamData := EncodeBodyStream(p.bodyStream);
      Associate(start, headerData, bodyStreamData);
      encoded := encoded + bodyStreamData;
      if p.hasFinalBoundary {
        encoded := encoded + BoundaryData(Final, boundary);
      }
    }

    method SetFlags()
      requires Valid()
      modifies bodyParts
      ensures Valid() && Pieces() == Flagged(old(Pieces()))
    {
      if bodyParts != [] {
        bodyParts[0].hasInitialBoundary := true;
        bodyParts[|bodyParts| - 1].hasFinalBoundary := true;
      }
      forall i | 0 <= i < |bodyParts|
        ensures Pieces()[i] == Flagged(old(Pieces()))[i]
      {
      }
    }

    method Encode() returns (encoded: seq<Byte>)
      requires Valid()
      modifies bodyParts, Streams()
      ensures Valid() && encoded == Text(Flagged(old(Pieces())), boundary)
      ensures forall p :: p in bodyParts ==> p.bodyStream.rest == []
      ensures CR !in boundary && bodyParts != [] && OneOpener(old(Pieces())) ==>
        (ReadForms(encoded, boundary) == Some(old(Forms()))
         <==> ComesBack(old(Pieces()), old(Forms()), boundary))
    {
      hide ReadForms;
      hide ComesBack;
      hide OneOpener;
      hide TextsOf;
      hide Octets;
      ghost var before, forms := Pieces(), Forms();
      hide Text;
      hide PieceText;
      hide Flagged;
      hide HeaderText;
      SetFlags();
      ghost var ps := Pieces();
      TextOfNone(ps, boundary);
      encoded := [];
      for i := 0 to |bodyParts|
        invariant Valid() && encoded == Text(ps[..i], boundary)
        invariant forall j :: i <= j < |bodyParts| ==> bodyParts[j].AsPiece() == ps[j]
        invariant forall j :: 0 <= j < i ==> bodyParts[j].bodyStream.rest == []
      {
        var encodedData := EncodePart(bodyParts[i]);
        TextOneMore(ps, i, boundary);
        encoded := encoded + encodedData;
      }
      assert ps[..|ps|] == ps;
      if CR !in boundary && bodyParts != [] && OneOpener(before) { FormsReadBack(before, forms, boundary); }
    }

    // ----- To a stream -----

    // Goes on while the stream has space; what does not fit is dropped silently.
    method WriteBytes(data: seq<Byte>, outputStream: OutputStream)
      requires |outputStream.bytes| <= outputStream.capacity
      modifies outputStream
      ensures outputStream.bytes == Fit(old(outputStream.bytes) + data, outputStream.capacity)
    {
      var buffer := data;
      NothingAppended(outputStream.bytes);
      while buffer != [] && outputStream.HasSpaceAvailable()
        invariant |outputStream.bytes| <= outputStream.capacity
        invariant outputStream.bytes + buffer == old(outputStream.bytes) + data
        decreases |buffer|
      {
        ghost var before := outputStream.bytes;
        var bytesWritten := outputStream.Write(buffer);
        Associate(before, buffer[..bytesWritten], buffer[bytesWritten..]);
        assert buffer == buffer[..bytesWritten] + buffer[bytesWritten..];
        buffer := buffer[bytesWritten..];
      }
      FitPrefix(outputStream.bytes, buffer, outputStream.capacity);
    }

    method WriteBodyStream(inputStream: InputStream, outputStream: OutputStream)
      requires |outputStream.bytes| <= outputStream.capacity
      modifies inputStream, outputStream
      ensures inputStream.rest == []
      ensures outputStream.bytes == Fit(old(outputStream.bytes) + old(inputStream.rest), outputStream.capacity)
    {
      ghost var start, sent := outputStream.bytes, [];
      NothingAppended(start);
      NothingAppended(inputStream.rest);
      while true
        invariant sent + inputStream.rest == old(inputStream.rest)
        invariant outputStream.bytes == Fit(start + sent, outputStream.capacity)
        decreases |inputStream.rest|
      {
        var buffer := inputStream.Read(streamBufferSize);
        if buffer == [] { break; }
        WriteBytes(buffer, outputStream);
        FitTwice(start + sent, buffer, outputStream.capacity);
        Associate(start, sent, buffer);
        Associate(sent, buffer, inputStream.rest);
        sent := sent + buffer;
      }
    }

    method WritePart(p: BodyPart, outputStream: OutputStream)
      requires |outputStream.bytes| <= outputStream.capacity
      modifies p.bodyStream, outputStream
      ensures p.bodyStream.rest == []
      ensures outputStream.bytes
           == Fit(old(outputStream.bytes) + PieceText(old(p.AsPiece()), boundary), outputStream.capacity)
    {
      hide Fit;
      ghost var capacity, start := outputStream.capacity, outputStream.bytes;
      ghost var body := p.bodyStream.rest;
      var initialData := BoundaryData(if p.hasInitialBoundary then Initial else Encapsulated, boundary);
      WriteBytes(initialData, outputStream);
      var headerData := p.EncodeHeaders();
      FitFits(start + initialData, capacity);
      WriteBytes(headerData, outputStream);
      FitTwice(start + initialData, headerData, capacity);
      FitFits(start + initialData + headerData, capacity);
      WriteBodyStream(p.bodyStream, outputStream);
      FitTwice(start + initialData + headerData, body, capacity);
      Associate(start, initialData, headerData);
      Associate(start, initialData + headerData, body);
      Associate(initialData, headerData, body);
      ghost var text := initialData + (headerData + body);
      NothingAppended(text);
      if p.hasFinalBoundary {
        FitFits(start + text, capacity);
        WriteBytes(BoundaryData(Final, boundary), outputStream);
        FitTwice(start + text, BoundaryData(Final, boundary), capacity);
        Associate(start, text, BoundaryData(Final, boundary));
      }
    }

    method WriteEncodedData(outputStream: OutputStream)
      requires Valid() && outputStream.bytes == []
      modifies bodyParts, Streams(), outputStream
      ensures Valid() && outputStream.bytes == Fit(Text(Flagged(old(Pieces())), boundary), outputStream.capacity)
      ensures forall p :: p in bodyParts ==> p.bodyStream.rest == []
      ensures && CR !in boundary && bodyParts != [] && OneOpener(old(Pieces()))
              && |Text(Flagged(old(Pieces())), boundary)| <= outputStream.capacity ==>
        (ReadForms(outputStream.bytes, boundary) == Some(old(Forms()))
         <==> ComesBack(old(Pieces()), old(Forms()), boundary))
    {
      hide ReadForms;
      hide ComesBack;
      hide OneOpener;
      hide TextsOf;
      hide Octets;
      ghost var before, forms := Pieces(), Forms();
      hide Text;
      hide PieceText;
      hide Flagged;
      hide Fit;
      hide HeaderText;
      SetFlags();
      ghost var ps := Pieces();
      TextOfNone(ps, boundary);
      FitNothing(outputStream.capacity);
      for i := 0 to |bodyParts|
        invariant Valid() && outputStream.bytes == Fit(Text(ps[..i], boundary), outputStream.capacity)
        invariant forall j :: i <= j < |bodyParts| ==> bodyParts[j].AsPiece() == ps[j]
        invariant forall j :: 0 <= j < i ==> bodyParts[j].bodyStream.rest == []
      {
        FitFits(Text(ps[..i], boundary), outputStream.capacity);
        WritePart(bodyParts[i], outputStream);
        TextOneMore(ps, i, boundary);
        FitTwice(Text(ps[..i], boundary), PieceText(ps[i], boundary), outputStream.capacity);
      }
      assert ps[..|ps|] == ps;
      if |Text(ps, boundary)| <= outputStream.capacity { FitWhole(Text(ps, boundary), outputStream.capacity); }
      if CR !in boundary && bodyParts != [] && OneOpener(before) { FormsReadBack(before, forms, boundary); }
    }
  }

  lemma FitFits(a: seq<Byte>, capacity: nat)
    ensures |Fit(a, capacity)| <= capacity
  {
  }

  lemma FitWhole(a: seq<Byte>, capacity: nat)
    requires |a| <= capacity
    ensures Fit(a, capacity) == a
  {
  }

  lemma FitNothing(capacity: nat)
    ensures Fit([], capacity) == []
  {
  }

  lemma TextOfNone(ps: seq<Piece>, boundary: seq<Byte>)
    ensures Text(ps[..0], boundary) == []
  {
  }

  lemma FitPrefix(a: seq<Byte>, b: seq<Byte>, capacity: nat)
    requires |a| <= capacity && (b == [] || |a| == capacity)
    ensures a == Fit(a + b, capacity)
  {
  }

  lemma TextOneMore(ps: seq<Piece>, i: nat, boundary: seq<Byte>)
    requires i < |ps|
    ensures Text(ps[..i + 1], boundary) == Text(ps[..i], boundary) + PieceText(ps[i], boundary)
  {
    assert ps[..i + 1][..i] == ps[..i];
  }

  // ----- What the encoders make is the format -----

  function Plain(octets: seq<seq<Byte>>): seq<Piece> {
    seq(|octets|, i requires 0 <= i < |octets| => Piece(false, false, octets[i]))
  }

  function Opener(i: nat, boundary: seq<Byte>): seq<Byte> {
    if i == 0 then DashBoundary(boundary) else Delimiter(boundary)
  }

  lemma Regroup(before: seq<Byte>, opener: seq<Byte>, part: seq<Byte>, d: seq<Byte>, rest: seq<Byte>)
    ensures before + (opener + CRLF + part) + d + rest == before + opener + (CRLF + part + d + rest)
    ensures before + (opener + CRLF + part + (d + rest)) == before + opener + (CRLF + part + d + rest)
  {
  }

  lemma PieceParts(parts: seq<seq<Byte>>, i: nat, boundary: seq<Byte>)
    requires i < |parts|
    ensures PieceText(Flagged(Plain(parts))[i], boundary)
         == Opener(i, boundary) + CRLF + parts[i]
            + if i == |parts| - 1 then Delimiter(boundary) + ([DASH, DASH] + CRLF) else []
  {
    assert BoundaryData(Final, boundary) == Delimiter(boundary) + ([DASH, DASH] + CRLF);
    assert BoundaryData(Encapsulated, boundary) == Delimiter(boundary) + CRLF;
  }

  // From the i-th part on the text is what the format puts behind its opener.
  lemma {:induction false} TextIsTail(parts: seq<seq<Byte>>, i: nat, boundary: seq<Byte>)
    requires i < |parts|
    ensures Text(Flagged(Plain(parts)), boundary)
         == Text(Flagged(Plain(parts))[..i], boundary) + Opener(i, boundary) + Tail(parts[i..], boundary)
    decreases |parts| - i
  {
    var ps := Flagged(Plain(parts));
    var before, opener, d := Text(ps[..i], boundary), Opener(i, boundary), Delimiter(boundary);
    PieceParts(parts, i, boundary);
    TextOneMore(ps, i, boundary);
    assert parts[i..][1..] == parts[i + 1..];
    var rest := Tail(parts[i + 1..], boundary);
    Regroup(before, opener, parts[i], d, rest);
    hide Text;
    hide PieceText;
    hide Flagged;
    if i == |parts| - 1 {
      assert ps[..i + 1] == ps;
    } else {
      NothingAppended(opener + CRLF + parts[i]);
      TextIsTail(parts, i + 1, boundary);
    }
  }

  // Both encoders make the format of section 5.1.1, and nothing at all of no parts.
  lemma EncodedIsFormat(parts: seq<seq<Byte>>, boundary: seq<Byte>)
    ensures Text(Flagged(Plain(parts)), boundary) == if parts == [] then [] else Format(parts, boundary)
  {
    if parts != [] {
      hide Text;
      hide Tail;
      hide Flagged;
      TextIsTail(parts, 0, boundary);
      TextOfNone(Flagged(Plain(parts)), boundary);
      NothingAppended(DashBoundary(boundary));
      assert parts[0..] == parts;
    }
  }

  // ----- Parts that were encoded before -----

  // What every list of appended parts keeps: only the first may open the body.
  predicate OneOpener(ps: seq<Piece>) {
    forall i :: 0 < i < |ps| ==> !ps[i].initial
  }

  // Whatever is encoded and appended in whatever order.
  lemma OneOpenerKept(ps: seq<Piece>, octets: seq<Byte>)
    requires OneOpener(ps)
    ensures OneOpener(Flagged(ps)) && OneOpener(ps + [Piece(false, false, octets)])
  {
  }

  function Octets(ps: seq<Piece>): (octets: seq<seq<Byte>>)
    ensures |octets| == |ps|
  {
    seq(|ps|, i requires 0 <= i < |ps| => ps[i].octets)
  }

  // No part but the last closes the body.
  predicate ClosesLast(ps: seq<Piece>) {
    forall i :: 0 <= i < |ps| - 1 ==> !ps[i].final
  }

  // The first part that closes the body.
  function FirstClose(ps: seq<Piece>): (j: nat)
    requires ps != []
    ensures j < |ps| && (ps[j].final || j == |ps| - 1) && forall i :: 0 <= i < j ==> !ps[i].final
  {
    if ps[0].final || |ps| == 1 then 0 else 1 + FirstClose(ps[1..])
  }

  lemma {:induction false} TextBehind(ps: seq<Piece>, i: nat, boundary: seq<Byte>) returns (late: seq<Byte>)
    requires i <= |ps|
    ensures Text(ps, boundary) == Text(ps[..i], boundary) + late
    ensures |late| == 0 <==> i == |ps|
    decreases |ps|
  {
    if i == |ps| {
      late := [];
      assert ps[..i] == ps;
      NothingAppended(Text(ps, boundary));
    } else {
      var n := |ps| - 1;
      var before := TextBehind(ps[..n], i, boundary);
      assert ps[..n][..i] == ps[..i] && ps[..n + 1] == ps;
      late := before + PieceText(ps[n], boundary);
      assert |PieceText(ps[n], boundary)| > 0;
      hide Text;
      hide PieceText;
      TextOneMore(ps, n, boundary);
      Associate(Text(ps[..i], boundary), before, PieceText(ps[n], boundary));
    }
  }

  lemma FlagsUpToClose(ps: seq<Piece>)
    requires ps != [] && OneOpener(ps)
    ensures Flagged(ps)[..FirstClose(ps) + 1] == Flagged(Plain(Octets(ps)[..FirstClose(ps) + 1]))
    ensures FirstClose(ps) == |ps| - 1 <==> ClosesLast(ps)
  {
  }

  lemma FormatUpToClose(ps: seq<Piece>, boundary: seq<Byte>)
    requires ps != [] && OneOpener(ps)
    ensures Text(Flagged(ps)[..FirstClose(ps) + 1], boundary) == Format(Octets(ps)[..FirstClose(ps) + 1], boundary)
  {
    hide *;
    FlagsUpToClose(ps);
    EncodedIsFormat(Octets(ps)[..FirstClose(ps) + 1], boundary);
  }

  // Up to the first close the text is the format of the parts up to there.
  lemma ClosedText(ps: seq<Piece>, boundary: seq<Byte>) returns (late: seq<Byte>)
    requires ps != [] && OneOpener(ps)
    ensures Text(Flagged(ps), boundary) == Format(Octets(ps)[..FirstClose(ps) + 1], boundary) + late
    ensures |late| == 0 <==> FirstClose(ps) == |ps| - 1
  {
    var n := FirstClose(ps) + 1;
    var flagged, format := Flagged(ps), Format(Octets(ps)[..n], boundary);
    assert Text(flagged[..n], boundary) == format by { FormatUpToClose(ps, boundary); }
    hide *;
    late := TextBehind(flagged, n, boundary);
  }

  // Where the format of the first n parts closes, that of more goes on.
  lemma {:induction false} TailGoesOn(parts: seq<seq<Byte>>, n: nat, boundary: seq<Byte>)
    returns (before: seq<Byte>, more: seq<Byte>)
    requires n < |parts|
    ensures Tail(parts[..n], boundary) == before + ([DASH, DASH] + CRLF)
    ensures Tail(parts, boundary) == before + (CRLF + more)
    decreases n
  {
    var d := Delimiter(boundary);
    if n == 0 {
      before, more := [], parts[0] + d + Tail(parts[1..], boundary);
      Associate(CRLF, parts[0], d);
      Associate(CRLF, parts[0] + d, Tail(parts[1..], boundary));
    } else {
      before, more := TailGoesOn(parts[1..], n - 1, boundary);
      assert parts[..n][1..] == parts[1..][..n - 1];
      hide Delimiter;
      var opener := CRLF + parts[0] + d;
      Associate(opener, before, [DASH, DASH] + CRLF);
      Associate(opener, before, CRLF + more);
      before := opener + before;
    }
  }

  lemma Differ(opener: seq<Byte>, before: seq<Byte>, late: seq<Byte>, more: seq<Byte>)
    ensures opener + (before + ([DASH, DASH] + CRLF)) + late != opener + (before + (CRLF + more))
  {
    assert (opener + (before + ([DASH, DASH] + CRLF)) + late)[|opener| + |before|] == DASH;
    assert (opener + (before + (CRLF + more)))[|opener| + |before|] == CR;
  }

  // The format of the first n parts is no beginning of that of more.
  lemma FormatGoesOn(parts: seq<seq<Byte>>, n: nat, late: seq<Byte>, boundary: seq<Byte>)
    requires n < |parts|
    ensures Format(parts[..n], boundary) + late != Format(parts, boundary)
  {
    hide Tail;
    var before, more := TailGoesOn(parts, n, boundary);
    Differ(DashBoundary(boundary), before, late, more);
  }

  lemma AsIfFresh(ps: seq<Piece>)
    requires ps != [] && OneOpener(ps) && ClosesLast(ps)
    ensures Flagged(ps) == Flagged(Plain(Octets(ps)))
  {
  }

  lemma EncodedIsNotFormat(ps: seq<Piece>, boundary: seq<Byte>)
    requires ps != [] && OneOpener(ps) && FirstClose(ps) + 1 < |ps|
    ensures Text(Flagged(ps), boundary) != Format(Octets(ps), boundary)
  {
    hide *;
    var late := ClosedText(ps, boundary);
    FormatGoesOn(Octets(ps), FirstClose(ps) + 1, late, boundary);
  }

  // Encoding gives the format just when no part but the last was marked final by
  // an encoding before.
  lemma EncodedIsFormatIff(ps: seq<Piece>, boundary: seq<Byte>)
    requires ps != [] && OneOpener(ps)
    ensures Text(Flagged(ps), boundary) == Format(Octets(ps), boundary) <==> ClosesLast(ps)
  {
    FlagsUpToClose(ps);
    hide *;
    if ClosesLast(ps) {
      AsIfFresh(ps);
      EncodedIsFormat(Octets(ps), boundary);
    } else {
      EncodedIsNotFormat(ps, boundary);
    }
  }

  // A reader gets the parts up to the first that closes the body, if they are
  // clean, and never sees the later ones.
  lemma LatePartsAreUnread(ps: seq<Piece>, boundary: seq<Byte>)
    requires CR !in boundary && ps != [] && OneOpener(ps)
    ensures var read := Octets(ps)[..FirstClose(ps) + 1];
      Parse(Text(Flagged(ps), boundary), boundary) == Some(read) <==> Clean(read, boundary)
  {
    hide *;
    var late := ClosedText(ps, boundary);
    RoundTrip(Octets(ps)[..FirstClose(ps) + 1], late, boundary);
  }

  // So all that was appended is read back just when no part holds the delimiter
  // and none but the last closes the body.
  lemma EncodedReadsBack(ps: seq<Piece>, boundary: seq<Byte>)
    requires CR !in boundary && ps != [] && OneOpener(ps)
    ensures Parse(Text(Flagged(ps), boundary), boundary) == Some(Octets(ps))
            <==> Clean(Octets(ps), boundary) && ClosesLast(ps)
  {
    var j, octets := FirstClose(ps), Octets(ps);
    assert j == |ps| - 1 <==> ClosesLast(ps);
    var read := octets[..j + 1];
    assert octets == read + octets[j + 1..];
    assert Clean(octets, boundary) ==> Clean(read, boundary);
    assert j == |ps| - 1 ==> read == octets;
    hide *;
    var late := ClosedText(ps, boundary);
    RoundTrip(read, late, boundary);
    if !Clean(read, boundary) {
      FormatBehind(read, late, boundary);
      TailUnread(read, late, octets[j + 1..], boundary);
    }
  }

  // ----- What is read back of what is encoded -----

  function FormText(form: Form): seq<Byte> {
    HeaderText(form.headers) + form.body
  }

  function ReadParts(parts: seq<seq<Byte>>): Option<seq<Form>> {
    if parts == [] then Some([])
    else
      var first, rest := ReadPart(parts[0]), ReadParts(parts[1..]);
      if first.None? || rest.None? then None else Some([first.value] + rest.value)
  }

  // A body cut into its parts, and each of these into its headers and its own body.
  function ReadForms(s: seq<Byte>, boundary: seq<Byte>): Option<seq<Form>> {
    var parts := Parse(s, boundary);
    if parts.None? then None else ReadParts(parts.value)
  }

  ghost predicate Readable(form: Form) {
    Plainly(form.headers) && Cuttable(form.headers)
  }

  // The octets of the parts are the texts of the forms.
  predicate TextsOf(parts: seq<seq<Byte>>, forms: seq<Form>) {
    |parts| == |forms| && forall i :: 0 <= i < |forms| ==> parts[i] == FormText(forms[i])
  }

  lemma TextsUnfold(parts: seq<seq<Byte>>, forms: seq<Form>)
    requires parts != [] && forms != []
    ensures TextsOf(parts, forms) <==> parts[0] == FormText(forms[0]) && TextsOf(parts[1..], forms[1..])
  {
    hide FormText;
    if parts[0] == FormText(forms[0]) && TextsOf(parts[1..], forms[1..]) {
      forall i | 1 <= i < |forms|
        ensures parts[i] == FormText(forms[i])
      {
        assert parts[1..][i - 1] == FormText(forms[1..][i - 1]);
      }
    }
  }

  lemma {:induction false} ReadAreTexts(parts: seq<seq<Byte>>, forms: seq<Form>)
    requires ReadParts(parts) == Some(forms)
    ensures TextsOf(parts, forms)
  {
    if parts != [] {
      PartIsText(parts[0], forms[0]);
      ReadAreTexts(parts[1..], forms[1..]);
      TextsUnfold(parts, forms);
    }
  }

  lemma {:induction false} TextsAreRead(parts: seq<seq<Byte>>, forms: seq<Form>)
    requires TextsOf(parts, forms)
    ensures ReadParts(parts) == Some(forms) <==> forall i :: 0 <= i < |forms| ==> Readable(forms[i])
  {
    hide Readable;
    hide ReadPart;
    hide HeaderText;
    if forms != [] {
      TextsUnfold(parts, forms);
      PartReadBack(forms[0]);
      assert Readable(forms[0]) <==> ReadPart(parts[0]) == Some(forms[0]) by { ReadableMeans(forms[0]); }
      TextsAreRead(parts[1..], forms[1..]);
      assert forms == [forms[0]] + forms[1..];
      assert forall i :: 1 <= i < |forms| ==> forms[i] == forms[1..][i - 1];
    }
  }

  lemma ReadableMeans(form: Form)
    ensures Readable(form) <==> Plainly(form.headers) && Cuttable(form.headers)
  {
  }

  // No part holds the delimiter, none but the last closes the body, no header line
  // holds a line end and no key a colon with a space behind it.
  ghost predicate ComesBack(ps: seq<Piece>, forms: seq<Form>, boundary: seq<Byte>) {
    Clean(Octets(ps), boundary) && ClosesLast(ps) && forall i :: 0 <= i < |forms| ==> Readable(forms[i])
  }

  // Just then all headers and bodies come back from what is encoded.
  lemma FormsReadBack(ps: seq<Piece>, forms: seq<Form>, boundary: seq<Byte>)
    requires CR !in boundary && ps != [] && OneOpener(ps) && TextsOf(Octets(ps), forms)
    ensures ReadForms(Text(Flagged(ps), boundary), boundary) == Some(forms) <==> ComesBack(ps, forms, boundary)
  {
    var octets, text := Octets(ps), Text(Flagged(ps), boundary);
    hide Parse;
    hide ReadParts;
    hide Octets;
    hide Text;
    hide Flagged;
    hide FormText;
    hide Readable;
    EncodedReadsBack(ps, boundary);
    TextsAreRead(octets, forms);
    if ReadForms(text, boundary) == Some(forms) {
      var parts := Parse(text, boundary).value;
      ReadAreTexts(parts, forms);
      assert parts == octets;
    }
  }

  lemma OneHeader(form: Form)
    requires |form.headers| == 1
    ensures var h := form.headers[0]; FormText(form) == h.key + [58, 32] + h.value + [13, 10, 13, 10] + form.body
  {
    LinesUnfold(form.headers);
    assert HeaderText(form.headers[1..]) == [13, 10];
    assert HeaderLine(form.headers[0]) == form.headers[0].key + [58, 32] + form.headers[0].value;
    assert [13, 10] + [13, 10] == [13, 10, 13, 10];
  }

  lemma TwoParts(parts: seq<seq<Byte>>, boundary: seq<Byte>)
    requires |parts| == 2
    ensures Format(parts, boundary)
         == [45, 45] + boundary + [13, 10] + parts[0] + [13, 10, 45, 45] + boundary + [13, 10] + parts[1]
            + [13, 10, 45, 45] + boundary + [45, 45, 13, 10]
  {
    var rest := parts[1..];
    assert Tail(rest[1..], boundary) == [45, 45, 13, 10];
    assert Tail(rest, boundary) == [13, 10] + rest[0] + Delimiter(boundary) + [45, 45, 13, 10];
    assert Tail(parts, boundary) == [13, 10] + parts[0] + Delimiter(boundary) + Tail(rest, boundary);
    assert Delimiter(boundary) == [13, 10, 45, 45] + boundary;
    assert DashBoundary(boundary) == [45, 45] + boundary;
  }

  // Two parts of one header each, byte for byte.
  lemma TwoForms(first: Form, second: Form, boundary: seq<Byte>)
    requires |first.headers| == 1 && |second.headers| == 1
    ensures var a, b := first.headers[0], second.headers[0];
      Text(Flagged(Plain([FormText(first), FormText(second)])), boundary)
      == [45, 45] + boundary + [13, 10] + (a.key + [58, 32] + a.value + [13, 10, 13, 10] + first.body)
         + [13, 10, 45, 45] + boundary + [13, 10] + (b.key + [58, 32] + b.value + [13, 10, 13, 10] + second.body)
         + [13, 10, 45, 45] + boundary + [45, 45, 13, 10]
  {
    hide *;
    var parts := [FormText(first), FormText(second)];
    OneHeader(first);
    OneHeader(second);
    EncodedIsFormat(parts, boundary);
    TwoParts(parts, boundary);
  }
}
