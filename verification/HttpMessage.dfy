/** lib/api/prom_endp/http_message.cc: printing an HTTP request and parsing it back. */
module HttpMessages {
  import opened Bytes
  import opened Data
  import opened Decimal
  import opened QueryResults

  const CR: byte := 13
  const LF: byte := 10
  const SPACE: byte := 32
  const COLON: byte := 58
  const CRLF: seq<byte> := [13, 10]
  const BLANK_LINE: seq<byte> := [13, 10, 13, 10]

  datatype Method = GET | HEAD | POST | PUT | DELETE | CONNECT | OPTIONS | TRACE | PATCH

  /** Headers in the order of std::map: names increasing. The version is always HTTP/1.1. */
  type Headers = seq<(seq<byte>, seq<byte>)>

  datatype Request = Request(kind: Method, path: seq<byte>, headers: Headers, content: seq<byte>)

  // ----- tables

  function MethodText(m: Method): (s: seq<byte>) {
    match m
    case GET => [71, 69, 84]
    case HEAD => [72, 69, 65, 68]
    case POST => [80, 79, 83, 84]
    case PUT => [80, 85, 84]
    case DELETE => [68, 69, 76, 69, 84, 69]
    case CONNECT => [67, 79, 78, 78, 69, 67, 84]
    case OPTIONS => [79, 80, 84, 73, 79, 78, 83]
    case TRACE => [84, 82, 65, 67, 69]
    case PATCH => [80, 65, 84, 67, 72]
  }

  /** "HTTP/1.1" */
  const VERSION: seq<byte> := [72, 84, 84, 80, 47, 49, 46, 49]

  /** "Content-Length" */
  const CONTENT_LENGTH: seq<byte> := [67, 111, 110, 116, 101, 110, 116, 45, 76, 101, 110, 103, 116, 104]

  function ToUpper(b: byte): (r: byte) {
    if 97 <= b <= 122 then b - 32 else b
  }

  function ToLower(b: byte): (r: byte) {
    if 65 <= b <= 90 then b + 32 else b
  }

  function Upper(s: seq<byte>): (r: seq<byte>) {
    seq(|s|, i requires 0 <= i < |s| => ToUpper(s[i]))
  }

  function Lower(s: seq<byte>): (r: seq<byte>) {
    seq(|s|, i requires 0 <= i < |s| => ToLower(s[i]))
  }

  function ParseMethod(s: seq<byte>): (m: Option<Method>) {
    var u := Upper(s);
    if u == MethodText(GET) then Some(GET)
    else if u == MethodText(HEAD) then Some(HEAD)
    else if u == MethodText(POST) then Some(POST)
    else if u == MethodText(PUT) then Some(PUT)
    else if u == MethodText(DELETE) then Some(DELETE)
    else if u == MethodText(CONNECT) then Some(CONNECT)
    else if u == MethodText(OPTIONS) then Some(OPTIONS)
    else if u == MethodText(TRACE) then Some(TRACE)
    else if u == MethodText(PATCH) then Some(PATCH)
    else None
  }

  lemma MethodRoundTrip(m: Method)
    ensures ParseMethod(MethodText(m)) == Some(m)
  {
    var s := MethodText(m);
    assert Upper(s) == s;
    assert s[0] == ToUpper(s[0]) && s[1] == ToUpper(s[1]);
  }

  // ----- printing

  function Line(h: (seq<byte>, seq<byte>)): (s: seq<byte>) {
    h.0 + [COLON, SPACE] + h.1
  }

  function Lines(hs: Headers): (s: seq<byte>) {
    if hs == [] then [] else Line(hs[0]) + CRLF + Lines(hs[1..])
  }

  function StartLine(r: Request): (s: seq<byte>) {
    MethodText(r.kind) + [SPACE] + r.path + [SPACE] + VERSION
  }

  function Print(r: Request): (s: seq<byte>) {
    StartLine(r) + CRLF + Lines(r.headers) + CRLF + r.content
  }

  // ----- parsing

  function SkipSpaces(s: seq<byte>): (r: seq<byte>)
    ensures |r| <= |s|
  {
    if s != [] && IsSpace(s[0]) then SkipSpaces(s[1..]) else s
  }

  function TakeWord(s: seq<byte>): (w: seq<byte>)
    ensures w <= s
  {
    if s == [] || IsSpace(s[0]) then [] else [s[0]] + TakeWord(s[1..])
  }

  /** operator>>: the next word and what follows it. */
  function NextWord(s: seq<byte>): (r: (seq<byte>, seq<byte>)) {
    var t := SkipSpaces(s);
    (TakeWord(t), t[|TakeWord(t)|..])
  }

  function RemoveSpaces(s: seq<byte>): (r: seq<byte>) {
    if s == [] then [] else (if IsSpace(s[0]) then [] else [s[0]]) + RemoveSpaces(s[1..])
  }

  function SetHeader(hs: Headers, k: seq<byte>, v: seq<byte>): (r: Headers) {
    if hs == [] then [(k, v)]
    else if hs[0].0 == k then [(k, v)] + hs[1..]
    else if TextLeq(hs[0].0, k) then [hs[0]] + SetHeader(hs[1..], k, v)
    else [(k, v)] + hs
  }

  /** One header line; without a colon the second getline leaves the previous value in place. */
  function ReadLine(line: seq<byte>, value: seq<byte>): (h: (seq<byte>, seq<byte>)) {
    match FindToken(line, [COLON])
    case None => (RemoveSpaces(line), RemoveSpaces(value))
    case Some(i) => (RemoveSpaces(line[..i]), RemoveSpaces(line[i + 1..]))
  }

  function ReadHeaders(s: seq<byte>, value: seq<byte>, hs: Headers): (r: Headers)
    decreases |s|
  {
    if s == [] then hs
    else match FindToken(s, [LF])
      case None => var h := ReadLine(s, value); SetHeader(hs, h.0, h.1)
      case Some(i) => var h := ReadLine(s[..i], value); ReadHeaders(s[i + 1..], h.1, SetHeader(hs, h.0, h.1))
  }

  /** string_to_request; None stands for its exceptions. */
  function Parse(s: seq<byte>): (r: Option<Request>) {
    match FindToken(s, CRLF)
    case None => None
    case Some(i) =>
      var rest := s[i + 2..];
      var (lines, body) := match FindToken(rest, BLANK_LINE)
        case None => ([], [])
        case Some(j) => (rest[..j], rest[j + 4..]);
      var (method_, s1) := NextWord(s[..i]);
      var (path, s2) := NextWord(s1);
      var (version, _) := NextWord(s2);
      match ParseMethod(method_)
      case None => None
      case Some(m) =>
        if Upper(version) != VERSION then None
        else
          var hs := ReadHeaders(lines, [], []);
          Some(Request(m, Lower(path), SetHeader(hs, CONTENT_LENGTH, ToString(|body|)), body))
  }

  // ----- finding

  function Shift(r: Option<nat>, n: nat): (r': Option<nat>) {
    match r case None => None case Some(i) => Some(i + n)
  }

  lemma FindLater(s: seq<byte>, t: seq<byte>)
    requires s != [] && t != [] && !(t <= s)
    ensures FindToken(s, t) == Shift(FindToken(s[1..], t), 1)
  {
    if |s| < |t| { assert FindToken(s[1..], t) == None; }
  }

  lemma FindPastByte(c: byte, s: seq<byte>, t: seq<byte>)
    requires t != [] && c != t[0]
    ensures FindToken([c] + s, t) == Shift(FindToken(s, t), 1)
  {
    hide FindToken;
    assert ([c] + s)[1..] == s;
    FindLater([c] + s, t);
  }

  lemma {:induction false} FindPast(a: seq<byte>, s: seq<byte>, t: seq<byte>)
    requires t != [] && t[0] !in a
    ensures FindToken(a + s, t) == Shift(FindToken(s, t), |a|)
    decreases |a|
  {
    hide FindToken;
    if a == [] {
      assert a + s == s;
    } else {
      assert a + s == [a[0]] + (a[1..] + s);
      FindPast(a[1..], s, t);
      FindPastByte(a[0], a[1..] + s, t);
    }
  }

  /** A line end that is not followed by another carriage return is not the blank line. */
  lemma FindPastLineEnd(s: seq<byte>)
    requires s != [] && s[0] != CR
    ensures FindToken(CRLF + s, BLANK_LINE) == Shift(FindToken(s, BLANK_LINE), 2)
  {
    hide FindToken;
    FindPastByte(LF, s, BLANK_LINE);
    var r := CRLF + s;
    assert r[1..] == [LF] + s && r[2] == s[0] && BLANK_LINE[2] == CR;
    FindLater(r, BLANK_LINE);
  }

  // ----- well-formed requests

  ghost predicate NoSpaces(s: seq<byte>) {
    forall i | 0 <= i < |s| :: !IsSpace(s[i])
  }

  ghost predicate HeaderOk(h: (seq<byte>, seq<byte>)) {
    NoSpaces(h.0) && COLON !in h.0 && NoSpaces(h.1)
  }

  ghost predicate Sorted(hs: Headers) {
    forall i, j | 0 <= i < j < |hs| :: TextLeq(hs[i].0, hs[j].0) && hs[i].0 != hs[j].0
  }

  ghost predicate WellFormed(r: Request) {
    && r.path != [] && NoSpaces(r.path) && Lower(r.path) == r.path
    && Sorted(r.headers) && forall i | 0 <= i < |r.headers| :: HeaderOk(r.headers[i])
  }

  lemma LineFacts(h: (seq<byte>, seq<byte>))
    requires HeaderOk(h)
    ensures CR !in Line(h) && LF !in Line(h) && Line(h) != [] && Line(h)[0] != CR
  {
    var s := Line(h);
    forall i | 0 <= i < |s| ensures s[i] != CR && s[i] != LF {
      if i < |h.0| { assert s[i] == h.0[i]; } else if i >= |h.0| + 2 { assert s[i] == h.1[i - |h.0| - 2]; }
    }
  }

  /** The header section without the line end of its last line. */
  ghost function Section(hs: Headers): (s: seq<byte>)
    requires hs != []
  {
    if |hs| == 1 then Line(hs[0]) else Line(hs[0]) + CRLF + Section(hs[1..])
  }

  lemma JoinParts(a: seq<byte>, b: seq<byte>, c: seq<byte>, d: seq<byte>)
    ensures a + (b + (c + d)) == a + b + c + d
    ensures a + b + (c + d) == a + b + c + d
  {
  }

  lemma {:induction false} SectionThenBlank(hs: Headers)
    requires hs != []
    ensures Lines(hs) + CRLF == Section(hs) + BLANK_LINE
  {
    hide Line;
    var l := Line(hs[0]);
    if |hs| == 1 {
      assert hs[1..] == [];
      assert Lines(hs) == l + CRLF;
      assert l + CRLF + CRLF == l + BLANK_LINE;
    } else {
      SectionThenBlank(hs[1..]);
      JoinParts(l, CRLF, Lines(hs[1..]), CRLF);
      JoinParts(l, CRLF, Section(hs[1..]), BLANK_LINE);
    }
  }

  lemma SectionStart(hs: Headers)
    requires hs != [] && HeaderOk(hs[0])
    ensures Section(hs) != [] && Section(hs)[0] != CR
  {
    hide Line, HeaderOk;
    LineFacts(hs[0]);
  }

  /** The first blank line of the text is the one that ends the headers. */
  lemma {:induction false} SectionFound(hs: Headers, content: seq<byte>)
    requires hs != [] && forall i | 0 <= i < |hs| :: HeaderOk(hs[i])
    ensures FindToken(Section(hs) + (BLANK_LINE + content), BLANK_LINE) == Some(|Section(hs)|)
  {
    hide FindToken, Line, HeaderOk;
    var l, tail := Line(hs[0]), BLANK_LINE + content;
    assert HeaderOk(hs[0]);
    LineFacts(hs[0]);
    if |hs| == 1 {
      FindFirst(l, BLANK_LINE, content);
      assert l + BLANK_LINE + content == l + tail;
    } else {
      var rest := Section(hs[1..]);
      assert HeaderOk(hs[1]);
      SectionStart(hs[1..]);
      SectionFound(hs[1..], content);
      FoundAfterLine(l, rest, tail);
    }
  }

  lemma FoundAfterLine(l: seq<byte>, rest: seq<byte>, tail: seq<byte>)
    requires CR !in l && rest != [] && rest[0] != CR
    requires FindToken(rest + tail, BLANK_LINE) == Some(|rest|)
    ensures FindToken(l + CRLF + rest + tail, BLANK_LINE) == Some(|l + CRLF + rest|)
  {
    hide FindToken;
    FindPastLineEnd(rest + tail);
    FindPast(l, CRLF + (rest + tail), BLANK_LINE);
    JoinParts(l, CRLF, rest, tail);
  }

  // ----- reading the headers back

  lemma {:induction false} RemoveNone(s: seq<byte>)
    requires NoSpaces(s)
    ensures RemoveSpaces(s) == s
  {
    if s != [] {
      RemoveNone(s[1..]);
      assert s == [s[0]] + s[1..];
    }
  }

  lemma {:induction false} RemoveEnd(s: seq<byte>, c: byte)
    requires NoSpaces(s) && IsSpace(c)
    ensures RemoveSpaces(s + [c]) == s
  {
    if s == [] {
      assert (s + [c])[1..] == [];
    } else {
      assert (s + [c])[1..] == s[1..] + [c];
      RemoveEnd(s[1..], c);
      assert s == [s[0]] + s[1..];
    }
  }

  /** A printed header line, with or without its carriage return, reads back as the header. */
  lemma ReadsLine(h: (seq<byte>, seq<byte>), value: seq<byte>)
    requires HeaderOk(h)
    ensures ReadLine(Line(h), value) == h && ReadLine(Line(h) + [CR], value) == h
  {
    hide FindToken, RemoveSpaces;
    var n := |h.0|;
    FindFirst(h.0, [COLON], [SPACE] + h.1);
    FindFirst(h.0, [COLON], [SPACE] + h.1 + [CR]);
    assert Line(h) == h.0 + [COLON] + ([SPACE] + h.1);
    assert Line(h) + [CR] == h.0 + [COLON] + ([SPACE] + h.1 + [CR]);
    assert Line(h)[..n] == h.0 && Line(h)[n + 1..] == [SPACE] + h.1;
    assert (Line(h) + [CR])[..n] == h.0 && (Line(h) + [CR])[n + 1..] == [SPACE] + (h.1 + [CR]);
    RemoveNone(h.0);
    RemoveNone(h.1);
    RemoveEnd(h.1, CR);
    RemoveStart(h.1);
    RemoveStart(h.1 + [CR]);
  }

  lemma RemoveStart(s: seq<byte>)
    ensures RemoveSpaces([SPACE] + s) == RemoveSpaces(s)
  {
    assert ([SPACE] + s)[1..] == s;
  }

  lemma {:induction false} SetAtEnd(hs: Headers, k: seq<byte>, v: seq<byte>)
    requires forall i | 0 <= i < |hs| :: TextLeq(hs[i].0, k) && hs[i].0 != k
    ensures SetHeader(hs, k, v) == hs + [(k, v)]
  {
    hide TextLeq;
    if hs != [] { SetAtEnd(hs[1..], k, v); }
  }

  lemma {:induction false} ReadsSection(hs: Headers, value: seq<byte>, done: Headers)
    requires hs != [] && (forall i | 0 <= i < |hs| :: HeaderOk(hs[i])) && Sorted(done + hs)
    ensures ReadHeaders(Section(hs), value, done) == done + hs
    decreases |hs|
  {
    hide FindToken, Line, HeaderOk, TextLeq, ReadLine;
    var h := hs[0];
    assert HeaderOk(hs[0]);
    LineFacts(h);
    ReadsLine(h, value);
    assert forall i | 0 <= i < |done| :: (done + hs)[i] == done[i];
    assert (done + hs)[|done|] == h;
    SetAtEnd(done, h.0, h.1);
    if |hs| == 1 {
      FindNone(Line(h), LF);
      assert hs == [h];
    } else {
      var rest := Section(hs[1..]);
      var l := Line(h) + [CR];
      assert Section(hs) == l + [LF] + rest;
      FindFirst(l, [LF], rest);
      assert Section(hs)[..|l|] == l && Section(hs)[|l| + 1..] == rest;
      assert done + [h] + hs[1..] == done + hs;
      ReadsSection(hs[1..], h.1, done + [h]);
    }
  }

  // ----- the start line

  lemma {:induction false} TakesWord(w: seq<byte>, rest: seq<byte>)
    requires NoSpaces(w) && (rest == [] || IsSpace(rest[0]))
    ensures TakeWord(w + rest) == w
  {
    if w == [] {
      assert w + rest == rest;
    } else {
      assert (w + rest)[1..] == w[1..] + rest;
      TakesWord(w[1..], rest);
      assert w == [w[0]] + w[1..];
    }
  }

  lemma WordThen(w: seq<byte>, rest: seq<byte>)
    requires w != [] && NoSpaces(w) && (rest == [] || IsSpace(rest[0]))
    ensures NextWord(w + rest) == (w, rest)
    ensures NextWord([SPACE] + (w + rest)) == (w, rest)
  {
    var s := w + rest;
    assert s[0] == w[0];
    TakesWord(w, rest);
    assert s[|w|..] == rest;
    assert ([SPACE] + s)[1..] == s;
  }

  lemma MethodFacts(m: Method)
    ensures MethodText(m) != [] && NoSpaces(MethodText(m))
  {
  }

  lemma StartLineReads(r: Request)
    requires WellFormed(r)
    ensures CR !in StartLine(r)
    ensures var (method_, s1) := NextWord(StartLine(r)); var (path, s2) := NextWord(s1);
      var (version, _) := NextWord(s2);
      method_ == MethodText(r.kind) && path == r.path && version == VERSION
  {
    hide NextWord, MethodText, Lower, Sorted, HeaderOk;
    MethodFacts(r.kind);
    assert NoSpaces(VERSION);
    var s2 := [SPACE] + (VERSION + []);
    var s1 := [SPACE] + (r.path + s2);
    assert VERSION + [] == VERSION;
    assert StartLine(r) == MethodText(r.kind) + s1;
    WordThen(MethodText(r.kind), s1);
    WordThen(r.path, s2);
    WordThen(VERSION, []);
    forall i | 0 <= i < |StartLine(r)| ensures StartLine(r)[i] != CR {
      var n := |MethodText(r.kind)|;
      if i < n { assert !IsSpace(MethodText(r.kind)[i]); }
      else if n < i <= n + |r.path| { assert StartLine(r)[i] == r.path[i - n - 1] && !IsSpace(r.path[i - n - 1]); }
      else if i > n + |r.path| + 1 { assert StartLine(r)[i] == VERSION[i - n - |r.path| - 2]; }
    }
  }

  // ----- the round trip

  /** What a parsed request always carries. */
  function WithLength(r: Request): (r': Request) {
    r.(headers := SetHeader(r.headers, CONTENT_LENGTH, ToString(|r.content|)))
  }

  /** Where string_to_request cuts the text of a printed request. */
  lemma Cuts(r: Request)
    requires WellFormed(r) && r.headers != []
    ensures var s, l, h := Print(r), StartLine(r), Section(r.headers);
      && FindToken(s, CRLF) == Some(|l|) && |l| + 2 <= |s| && s[..|l|] == l
      && s[|l| + 2..] == h + (BLANK_LINE + r.content)
      && FindToken(h + (BLANK_LINE + r.content), BLANK_LINE) == Some(|h|)
  {
    hide FindToken, Section, StartLine, Lines, HeaderOk, Sorted, NextWord, Lower, NoSpaces;
    StartLineReads(r);
    SectionThenBlank(r.headers);
    SectionFound(r.headers, r.content);
    var l := StartLine(r);
    var rest := Section(r.headers) + (BLANK_LINE + r.content);
    PrintIs(r);
    FindFirst(l, CRLF, rest);
  }

  lemma PrintIs(r: Request)
    requires r.headers != []
    ensures Print(r) == StartLine(r) + CRLF + (Section(r.headers) + (BLANK_LINE + r.content))
  {
    hide Section, StartLine, Lines;
    SectionThenBlank(r.headers);
    assert Section(r.headers) + (BLANK_LINE + r.content) == Section(r.headers) + BLANK_LINE + r.content;
    assert Print(r) == StartLine(r) + CRLF + (Lines(r.headers) + CRLF + r.content);
  }

  lemma ParsedParts(r: Request)
    requires WellFormed(r) && r.headers != []
    ensures Parse(Print(r)) == Some(WithLength(r))
  {
    hide FindToken, NextWord, ParseMethod, MethodText, SetHeader, ReadHeaders, ToString, HeaderOk, Section, StartLine,
      Print;
    hide Sorted, Upper, Lower, NoSpaces;
    StartLineReads(r);
    Cuts(r);
    var h := Section(r.headers);
    assert (h + (BLANK_LINE + r.content))[..|h|] == h;
    assert (h + (BLANK_LINE + r.content))[|h| + 4..] == r.content;
    assert [] + r.headers == r.headers;
    ReadsSection(r.headers, [], []);
    MethodRoundTrip(r.kind);
    VersionRoundTrip();
  }

  lemma VersionRoundTrip()
    ensures Upper(VERSION) == VERSION
  {
  }

  lemma {:induction false} SetThenFind(hs: Headers, k: seq<byte>, v: seq<byte>)
    ensures SetHeader(hs, k, v) == hs ==> (k, v) in hs
    ensures (k, v) in SetHeader(hs, k, v)
  {
    hide TextLeq;
    if hs != [] {
      SetThenFind(hs[1..], k, v);
      assert hs == [hs[0]] + hs[1..];
    }
  }

  lemma {:induction false} SetAgain(hs: Headers, k: seq<byte>, v: seq<byte>)
    requires Sorted(hs) && (k, v) in hs
    ensures SetHeader(hs, k, v) == hs
  {
    hide TextLeq;
    assert hs == [hs[0]] + hs[1..];
    var i :| 0 <= i < |hs| && hs[i] == (k, v);
    if i > 0 {
      assert TextLeq(hs[0].0, hs[i].0) && hs[0].0 != k;
      assert hs[1..][i - 1] == (k, v);
      SetAgain(hs[1..], k, v);
    }
  }

  lemma AlwaysLength(s: seq<byte>)
    ensures Parse(s).Some? ==> (CONTENT_LENGTH, ToString(|Parse(s).value.content|)) in Parse(s).value.headers
  {
    hide SetHeader, ReadHeaders, FindToken, NextWord, ParseMethod, ToString;
    forall hs: Headers, v: seq<byte> ensures (CONTENT_LENGTH, v) in SetHeader(hs, CONTENT_LENGTH, v) {
      SetThenFind(hs, CONTENT_LENGTH, v);
    }
  }

  // ----- every parsed request is well formed

  ghost predicate HeadersOk(hs: Headers) {
    Sorted(hs) && forall i | 0 <= i < |hs| :: HeaderOk(hs[i])
  }

  lemma {:induction false} RemovesAll(s: seq<byte>)
    ensures NoSpaces(RemoveSpaces(s))
    ensures COLON !in s ==> COLON !in RemoveSpaces(s)
  {
    if s != [] { RemovesAll(s[1..]); }
  }

  lemma ReadLineOk(line: seq<byte>, value: seq<byte>)
    ensures HeaderOk(ReadLine(line, value))
  {
    hide FindToken, RemoveSpaces, NoSpaces;
    BeforeFound(line, COLON);
    RemovesAll(line);
    RemovesAll(value);
    var r := FindToken(line, [COLON]);
    if r.Some? {
      RemovesAll(line[..r.value]);
      RemovesAll(line[r.value + 1..]);
    }
  }

  /** The names of the result are the new one and the old ones. */
  lemma {:induction false} SetNames(hs: Headers, k: seq<byte>, v: seq<byte>, i: nat)
    requires i < |SetHeader(hs, k, v)|
    ensures SetHeader(hs, k, v)[i] == (k, v) || SetHeader(hs, k, v)[i] in hs
  {
    hide TextLeq;
    if hs != [] && hs[0].0 != k && TextLeq(hs[0].0, k) && i > 0 {
      SetNames(hs[1..], k, v, i - 1);
    }
  }

  ghost predicate Below(a: seq<byte>, hs: Headers) {
    forall i | 0 <= i < |hs| :: TextLeq(a, hs[i].0) && a != hs[i].0
  }

  lemma SortedOne(h: (seq<byte>, seq<byte>))
    ensures Sorted([h])
  {
  }

  lemma SortedCons(h: (seq<byte>, seq<byte>), hs: Headers)
    requires Sorted(hs) && Below(h.0, hs)
    ensures Sorted([h] + hs)
  {
    hide TextLeq;
  }

  lemma SortedUncons(hs: Headers)
    requires Sorted(hs) && hs != []
    ensures Sorted(hs[1..]) && Below(hs[0].0, hs[1..])
  {
    hide TextLeq;
  }

  lemma BelowHead(k: seq<byte>, hs: Headers)
    requires Sorted(hs) && hs != [] && !TextLeq(hs[0].0, k)
    ensures Below(k, hs)
  {
    hide TextLeq;
    SortedUncons(hs);
    TextLeqTotal(k, hs[0].0);
    forall i | 0 <= i < |hs| ensures TextLeq(k, hs[i].0) && k != hs[i].0 {
      if i > 0 {
        assert hs[i] == hs[1..][i - 1];
        TextLeqTransitive(k, hs[0].0, hs[i].0);
      }
    }
  }

  lemma {:induction false} SetKeepsSorted(hs: Headers, k: seq<byte>, v: seq<byte>)
    requires Sorted(hs)
    ensures Sorted(SetHeader(hs, k, v))
  {
    hide TextLeq, Sorted;
    if hs == [] {
      SortedOne((k, v));
    } else {
      SortedUncons(hs);
      if hs[0].0 == k {
        SortedCons((k, v), hs[1..]);
      } else if TextLeq(hs[0].0, k) {
        SetKeepsSorted(hs[1..], k, v);
        var r := SetHeader(hs[1..], k, v);
        forall i | 0 <= i < |r| ensures TextLeq(hs[0].0, r[i].0) && hs[0].0 != r[i].0 {
          SetNames(hs[1..], k, v, i);
        }
        SortedCons(hs[0], r);
      } else {
        BelowHead(k, hs);
        SortedCons((k, v), hs);
      }
    }
  }

  lemma SetKeepsOk(hs: Headers, h: (seq<byte>, seq<byte>))
    requires HeadersOk(hs) && HeaderOk(h)
    ensures HeadersOk(SetHeader(hs, h.0, h.1))
  {
    hide HeaderOk, Sorted, SetHeader;
    SetKeepsSorted(hs, h.0, h.1);
    var r := SetHeader(hs, h.0, h.1);
    forall i | 0 <= i < |r| ensures HeaderOk(r[i]) {
      SetNames(hs, h.0, h.1, i);
    }
  }

  lemma {:induction false} ReadHeadersOk(s: seq<byte>, value: seq<byte>, hs: Headers)
    requires HeadersOk(hs)
    ensures HeadersOk(ReadHeaders(s, value, hs))
    decreases |s|
  {
    hide HeadersOk, HeaderOk, ReadLine, SetHeader, FindToken;
    if s != [] {
      var r := FindToken(s, [LF]);
      var line := if r.Some? then s[..r.value] else s;
      ReadLineOk(line, value);
      var h := ReadLine(line, value);
      SetKeepsOk(hs, h);
      if r.Some? { ReadHeadersOk(s[r.value + 1..], h.1, SetHeader(hs, h.0, h.1)); }
    }
  }

  lemma {:induction false} WordOk(s: seq<byte>)
    ensures NoSpaces(TakeWord(s))
  {
    if s != [] && !IsSpace(s[0]) { WordOk(s[1..]); }
  }

  lemma {:induction false} SkipsAll(s: seq<byte>)
    ensures SkipSpaces(s) == [] || !IsSpace(SkipSpaces(s)[0])
  {
    if s != [] && IsSpace(s[0]) { SkipsAll(s[1..]); }
  }

  /** No word is left after an empty word. */
  lemma EmptyWordEnds(s: seq<byte>)
    ensures NoSpaces(NextWord(s).0)
    ensures NextWord(s).0 == [] ==> NextWord(NextWord(s).1).0 == []
  {
    SkipsAll(s);
    WordOk(SkipSpaces(s));
  }

  lemma LowerOk(s: seq<byte>)
    requires NoSpaces(s)
    ensures NoSpaces(Lower(s)) && Lower(Lower(s)) == Lower(s) && |Lower(s)| == |s|
  {
  }

  /** Whatever text string_to_request accepts, the request it returns is well formed. */
  lemma ParsedWellFormed(s: seq<byte>)
    ensures Parse(s).Some? ==> WellFormed(Parse(s).value)
  {
    hide SetHeader, ReadHeaders, FindToken, NextWord, ParseMethod, ToString, HeaderOk, Sorted, NoSpaces, Lower;
    forall w: seq<byte>
      ensures NoSpaces(NextWord(w).0)
      ensures NextWord(w).0 == [] ==> NextWord(NextWord(w).1).0 == []
    {
      EmptyWordEnds(w);
    }
    forall w: seq<byte> | NoSpaces(w) ensures NoSpaces(Lower(w)) && Lower(Lower(w)) == Lower(w) && |Lower(w)| == |w| {
      LowerOk(w);
    }
    forall t: seq<byte>, n: nat ensures HeadersOk(SetHeader(ReadHeaders(t, [], []), CONTENT_LENGTH, ToString(n))) {
      NoHeaders();
      ReadHeadersOk(t, [], []);
      LengthHeaderOk(n);
      SetKeepsOk(ReadHeaders(t, [], []), (CONTENT_LENGTH, ToString(n)));
    }
  }

  lemma NoHeaders()
    ensures HeadersOk([])
  {
  }

  lemma LengthHeaderOk(n: nat)
    ensures HeaderOk((CONTENT_LENGTH, ToString(n)))
  {
    hide ToString;
  }

  /** Exactly the requests that survive printing and parsing: the well-formed ones whose
      Content-Length header is the length of their content. */
  lemma RoundTripIff(r: Request)
    ensures Parse(Print(r)) == Some(r) <==> WellFormed(r) && (CONTENT_LENGTH, ToString(|r.content|)) in r.headers
  {
    hide Parse, Print, SetHeader, ToString, HeaderOk, Lower;
    if WellFormed(r) && (CONTENT_LENGTH, ToString(|r.content|)) in r.headers {
      ParsedParts(r);
      SetAgain(r.headers, CONTENT_LENGTH, ToString(|r.content|));
    }
    AlwaysLength(Print(r));
    ParsedWellFormed(Print(r));
  }

  // ----- the loops

  method PrintRequest(r: Request) returns (s: seq<byte>)
    ensures s == Print(r)
  {
    hide MethodText, Line;
    s := MethodText(r.kind) + [SPACE];
    s := s + r.path + [SPACE];
    s := s + VERSION + CRLF;
    assert s == StartLine(r) + CRLF;
    ghost var start := s;
    assert r.headers[0..] == r.headers;
    for i := 0 to |r.headers|
      invariant s + Lines(r.headers[i..]) == start + Lines(r.headers)
    {
      var h := r.headers[i];
      ghost var was, rest := s, Lines(r.headers[i + 1..]);
      s := s + Line(h) + CRLF;
      assert r.headers[i..][1..] == r.headers[i + 1..];
      assert was + (Line(h) + CRLF + rest) == s + rest;
    }
    assert s + [] == s;
    s := s + CRLF;
    s := s + r.content;
  }

  method ReadHeaderLines(text: seq<byte>) returns (headers: Headers)
    ensures headers == ReadHeaders(text, [], [])
  {
    hide FindToken, ReadLine, SetHeader;
    var s, value := text, [];
    headers := [];
    while s != []
      invariant ReadHeaders(s, value, headers) == ReadHeaders(text, [], [])
      decreases |s|
    {
      var end := FindToken(s, [LF]);
      var line := if end.Some? then s[..end.value] else s;
      s := if end.Some? then s[end.value + 1..] else [];
      var h := ReadLine(line, value);
      value := h.1;
      headers := SetHeader(headers, h.0, h.1);
    }
  }

  method StringToRequest(s: seq<byte>) returns (r: Option<Request>)
    ensures r == Parse(s)
  {
    hide FindToken, NextWord, ParseMethod, SetHeader, ReadHeaders, Upper, Lower, ToString;
    var found := FindToken(s, CRLF);
    if found.None? { return None; }
    var startLine := s[..found.value];
    var rest := s[found.value + 2..];
    var headerLines, body := [], [];
    var blank := FindToken(rest, BLANK_LINE);
    if blank.Some? {
      headerLines := rest[..blank.value];
      body := rest[blank.value + 4..];
    }
    var (kind, s1) := NextWord(startLine);
    var (path, s2) := NextWord(s1);
    var (version, _) := NextWord(s2);
    var m := ParseMethod(kind);
    if m.None? || Upper(version) != VERSION { return None; }
    var headers := ReadHeaderLines(headerLines);
    headers := SetHeader(headers, CONTENT_LENGTH, ToString(|body|));
    r := Some(Request(m.value, Lower(path), headers, body));
  }

  // ----- the texts themselves

  function MethodName(m: Method): (s: string)
    ensures |s| >= 3 && forall i | 0 <= i < |s| :: 'A' <= s[i] <= 'Z'
  {
    match m
    case GET => "GET"
    case HEAD => "HEAD"
    case POST => "POST"
    case PUT => "PUT"
    case DELETE => "DELETE"
    case CONNECT => "CONNECT"
    case OPTIONS => "OPTIONS"
    case TRACE => "TRACE"
    case PATCH => "PATCH"
  }

  /** The names on the wire. */
  lemma Texts(m: Method)
    ensures MethodText(m) == Text(MethodName(m))
    ensures VERSION == Text("HTTP/1.1") && CONTENT_LENGTH == Text("Content-Length")
    ensures CRLF == Text("\r\n") && BLANK_LINE == Text("\r\n\r\n") && COLON == ':' as int && SPACE == ' ' as int
  {
  }

  /** Case conversion maps the 26 letters onto each other and changes nothing else. */
  lemma CaseExact(b: byte)
    ensures ToUpper(b) != b <==> 'a' as int <= b <= 'z' as int
    ensures ToLower(b) != b <==> 'A' as int <= b <= 'Z' as int
    ensures ToUpper(b) != b ==> ToLower(ToUpper(b)) == b && 'A' as int <= ToUpper(b) <= 'Z' as int
    ensures ToLower(b) != b ==> ToUpper(ToLower(b)) == b && 'a' as int <= ToLower(b) <= 'z' as int
    ensures ToUpper('a' as int) == 'A' as int && ToUpper('z' as int) == 'Z' as int
  {
  }

  /** A text equals a name in capitals, letter by letter in either case. */
  ghost predicate Reads(s: seq<byte>, name: string) {
    |s| == |name| && forall i | 0 <= i < |s| :: s[i] == name[i] as int || s[i] == name[i] as int + 32
  }

  lemma UpperReads(s: seq<byte>, name: string)
    requires forall i | 0 <= i < |name| :: 'A' <= name[i] <= 'Z'
    ensures Upper(s) == Text(name) <==> Reads(s, name)
  {
    if Upper(s) == Text(name) {
      forall i | 0 <= i < |s| ensures s[i] == name[i] as int || s[i] == name[i] as int + 32 {
        assert Upper(s)[i] == Text(name)[i];
      }
    }
  }

  /** string_to_method recognises exactly the nine names, in either case. */
  lemma ParseMethodExact(s: seq<byte>, m: Method)
    ensures ParseMethod(s) == Some(m) <==> Reads(s, MethodName(m))
  {
    hide Reads, Upper, MethodText, ParseMethod;
    Texts(m);
    UpperReads(s, MethodName(m));
    ParseMethodIs(s, m);
  }

  lemma ParseMethodIs(s: seq<byte>, m: Method)
    ensures ParseMethod(s) == Some(m) <==> Upper(s) == MethodText(m)
  {
    hide Upper, MethodText;
    forall x: Method, y: Method | MethodText(x) == MethodText(y) ensures x == y {
      NamesDiffer(x, y);
    }
  }

  lemma NamesDiffer(x: Method, y: Method)
    requires MethodText(x) == MethodText(y)
    ensures x == y
  {
    hide ParseMethod;
    MethodRoundTrip(x);
    MethodRoundTrip(y);
  }

  /** A start line of three words and what follows it. */
  function Started(m: seq<byte>, path: seq<byte>, v: seq<byte>, rest: seq<byte>): (s: seq<byte>) {
    m + [SPACE] + path + [SPACE] + v + CRLF + rest
  }

  ghost predicate Words(m: seq<byte>, path: seq<byte>, v: seq<byte>) {
    m != [] && path != [] && v != [] && NoSpaces(m) && NoSpaces(path) && NoSpaces(v)
  }

  lemma StartCut(m: seq<byte>, path: seq<byte>, v: seq<byte>, rest: seq<byte>) returns (line: seq<byte>)
    requires Words(m, path, v)
    ensures var s := Started(m, path, v, rest);
      FindToken(s, CRLF) == Some(|line|) && |line| + 2 <= |s| && s[..|line|] == line && s[|line| + 2..] == rest
    ensures var (m', s1) := NextWord(line); var (path', s2) := NextWord(s1);
      m' == m && path' == path && NextWord(s2).0 == v
  {
    hide FindToken, NextWord, NoSpaces;
    var s2 := [SPACE] + (v + []);
    var s1 := [SPACE] + (path + s2);
    line := m + s1;
    assert v + [] == v;
    assert Started(m, path, v, rest) == line + CRLF + rest;
    WordThen(m, s1);
    WordThen(path, s2);
    WordThen(v, []);
    NoReturn(m, path, v);
    FindFirst(line, CRLF, rest);
  }

  /** What becomes of a start line of three words, whatever follows it: accepted exactly for a known
      method and HTTP/1.1, in either case, and the path is put in lower case. Without a blank line
      there are neither headers nor content. */
  lemma ParseOutcome(m: seq<byte>, path: seq<byte>, v: seq<byte>, rest: seq<byte>)
    requires Words(m, path, v)
    ensures var r := Parse(Started(m, path, v, rest));
      && (r.Some? <==> (exists k: Method :: Reads(m, MethodName(k))) && Upper(v) == VERSION)
      && (r.Some? ==> Reads(m, MethodName(r.value.kind)) && r.value.path == Lower(path))
      && (r.Some? && FindToken(rest, BLANK_LINE).None? ==>
            r.value.content == [] && r.value.headers == [(CONTENT_LENGTH, [48])])
  {
    hide FindToken, NextWord, ParseMethod, MethodName, Reads, Upper, Lower, SetHeader, ToString, ReadHeaders,
      Started, Words;
    var line := StartCut(m, path, v, rest);
    NoContent();
    forall k: Method ensures ParseMethod(m) == Some(k) <==> Reads(m, MethodName(k)) { ParseMethodExact(m, k); }
  }

  lemma NoReturn(m: seq<byte>, path: seq<byte>, v: seq<byte>)
    requires NoSpaces(m) && NoSpaces(path) && NoSpaces(v)
    ensures CR !in m + ([SPACE] + (path + ([SPACE] + (v + []))))
  {
    assert IsSpace(CR);
    assert CR !in m && CR !in path && CR !in v;
  }

  lemma NoContent()
    ensures SetHeader(ReadHeaders([], [], []), CONTENT_LENGTH, ToString(0)) == [(CONTENT_LENGTH, [48])]
  {
    assert ToString(0) == [48];
  }

  /** Text without a line end is refused. */
  lemma NoLineEnd(s: seq<byte>)
    requires CR !in s
    ensures Parse(s) == None
  {
    hide NextWord, ParseMethod, SetHeader, ReadHeaders, ToString, Upper, Lower, FindToken;
    FoundStarts(s, CRLF);
  }

  lemma FoundStarts(s: seq<byte>, t: seq<byte>)
    requires t != []
    ensures FindToken(s, t).Some? ==> t[0] in s
  {
    hide FindToken;
    var i := FindToken(s, t);
    if i.Some? { assert s[i.value..i.value + |t|][0] == s[i.value]; }
  }

  // ----- one request, written out

  lemma LineThen(l: seq<byte>, rest: seq<byte>, value: seq<byte>, hs: Headers)
    requires LF !in l
    ensures var h := ReadLine(l, value);
      ReadHeaders(l + [LF] + rest, value, hs) == ReadHeaders(rest, h.1, SetHeader(hs, h.0, h.1))
  {
    hide FindToken, ReadLine, SetHeader;
    var s := l + [LF] + rest;
    FindFirst(l, [LF], rest);
    assert s[..|l|] == l && s[|l| + 1..] == rest;
  }

  lemma LineLast(l: seq<byte>, value: seq<byte>, hs: Headers)
    requires LF !in l && l != []
    ensures var h := ReadLine(l, value); ReadHeaders(l, value, hs) == SetHeader(hs, h.0, h.1)
  {
    hide FindToken, ReadLine, SetHeader;
    FindNone(l, LF);
  }

  lemma {:induction false} RemoveJoins(a: seq<byte>, b: seq<byte>)
    ensures RemoveSpaces(a + b) == RemoveSpaces(a) + RemoveSpaces(b)
    decreases |a|
  {
    if a == [] {
      assert a + b == b;
    } else {
      var h := if IsSpace(a[0]) then [] else [a[0]];
      assert (a + b)[1..] == a[1..] + b && (a + b)[0] == a[0];
      assert RemoveSpaces(a) == h + RemoveSpaces(a[1..]) && RemoveSpaces(a + b) == h + RemoveSpaces(a[1..] + b);
      hide RemoveSpaces;
      RemoveJoins(a[1..], b);
      Regroup(h, RemoveSpaces(a[1..]), RemoveSpaces(b));
    }
  }

  /** White space anywhere in a name or a value is dropped; the value starts after the first colon. */
  lemma ReadLineOf(name: seq<byte>, a: seq<byte>, b: seq<byte>, old': seq<byte>)
    requires COLON !in name && NoSpaces(name) && NoSpaces(a) && NoSpaces(b)
    ensures ReadLine(name + [COLON] + ([SPACE, SPACE] + a + [SPACE] + b + [CR]), old') == (name, a + b)
  {
    hide FindToken, RemoveSpaces;
    var v := [SPACE, SPACE] + a + [SPACE] + b + [CR];
    var line := name + [COLON] + v;
    FindFirst(name, [COLON], v);
    assert line[..|name|] == name && line[|name| + 1..] == v;
    RemoveNone(name);
    RemoveNone(a);
    RemoveNone(b);
    RemoveStart([SPACE] + (a + ([SPACE] + (b + [CR]))));
    RemoveStart(a + ([SPACE] + (b + [CR])));
    assert v == [SPACE] + ([SPACE] + (a + ([SPACE] + (b + [CR]))));
    RemoveJoins(a, [SPACE] + (b + [CR]));
    RemoveStart(b + [CR]);
    RemoveEnd(b, CR);
  }

  /** A line without a colon is a name, with the value of the line before it. */
  lemma ReadLineBare(name: seq<byte>, old': seq<byte>)
    requires COLON !in name && NoSpaces(name) && NoSpaces(old')
    ensures ReadLine(name, old') == (name, old')
  {
    hide FindToken, RemoveSpaces;
    FindNone(name, COLON);
    RemoveNone(name);
    RemoveNone(old');
  }

  /** Headers are kept in the order of their names, and a later value of a name replaces the earlier. */
  lemma SetOrder(a: (seq<byte>, seq<byte>), b: (seq<byte>, seq<byte>), v: seq<byte>)
    requires TextLeq(a.0, b.0) && a.0 != b.0
    ensures SetHeader([a], b.0, b.1) == [a, b] && SetHeader([b], a.0, a.1) == [a, b]
    ensures SetHeader([a], a.0, v) == [(a.0, v)]
  {
    if TextLeq(b.0, a.0) { TextLeqAntisymmetric(a.0, b.0); }
    hide TextLeq;
    assert SetHeader([], b.0, b.1) == [b];
    assert [a][1..] == [] && [a] + [b] == [a, b];
  }

  /** The whole request, when the start line is accepted and the headers end at the first blank line. */
  lemma ParseWhole(m: seq<byte>, path: seq<byte>, v: seq<byte>, lines: seq<byte>, body: seq<byte>, k: Method)
    requires Words(m, path, v) && Reads(m, MethodName(k)) && Upper(v) == VERSION
    requires FindToken(lines + (BLANK_LINE + body), BLANK_LINE) == Some(|lines|)
    ensures Parse(Started(m, path, v, lines + (BLANK_LINE + body))) ==
      Some(Request(k, Lower(path), SetHeader(ReadHeaders(lines, [], []), CONTENT_LENGTH, ToString(|body|)), body))
  {
    hide Parse, FindToken, NextWord, ParseMethod, MethodName, Reads, Upper, Lower, SetHeader, ToString, ReadHeaders,
      Started, Words;
    var rest := lines + (BLANK_LINE + body);
    var line := StartCut(m, path, v, rest);
    CutBlank(lines, body);
    ParseMethodExact(m, k);
    ParsePieces(Started(m, path, v, rest), line, rest, m, path, v);
  }

  lemma CutBlank(lines: seq<byte>, body: seq<byte>)
    ensures var rest := lines + (BLANK_LINE + body); rest[..|lines|] == lines && rest[|lines| + 4..] == body
  {
  }

  /** Parsing in terms of where the text was cut. */
  lemma ParsePieces(s: seq<byte>, line: seq<byte>, rest: seq<byte>, m: seq<byte>, path: seq<byte>, v: seq<byte>)
    requires FindToken(s, CRLF) == Some(|line|) && |line| + 2 <= |s| && s[..|line|] == line && s[|line| + 2..] == rest
    requires var (m', s1) := NextWord(line); var (path', s2) := NextWord(s1);
      m' == m && path' == path && NextWord(s2).0 == v
    requires ParseMethod(m).Some? && Upper(v) == VERSION && FindToken(rest, BLANK_LINE).Some?
    ensures var j := FindToken(rest, BLANK_LINE).value; var body := rest[j + 4..];
      Parse(s) == Some(Request(ParseMethod(m).value, Lower(path),
        SetHeader(ReadHeaders(rest[..j], [], []), CONTENT_LENGTH, ToString(|body|)), body))
  {
    hide FindToken, NextWord, ParseMethod, Upper, Lower, SetHeader, ToString, ReadHeaders;
  }

  // The bytes of the example below, piece by piece.
  const GET_LOWER: seq<byte> := [103, 101, 116]
  const METRICS: seq<byte> := [47, 77, 101, 116, 114, 105, 99, 115]
  const METRICS_LOWER: seq<byte> := [47, 109, 101, 116, 114, 105, 99, 115]
  const VERSION_LOWER: seq<byte> := [104, 116, 116, 112, 47, 49, 46, 49]
  const HOST: seq<byte> := [72, 111, 115, 116]
  const HOST_LINE: seq<byte> := [72, 111, 115, 116, 58, 32, 32, 97, 32, 98]

  lemma ExampleWords()
    ensures Reads(GET_LOWER, MethodName(GET)) && Upper(VERSION_LOWER) == VERSION && Lower(METRICS) == METRICS_LOWER
    ensures NoSpaces(GET_LOWER) && NoSpaces(METRICS) && NoSpaces(VERSION_LOWER)
  {
  }

  lemma ExampleOrder()
    ensures TextLeq(HOST, [88]) && TextLeq(CONTENT_LENGTH, HOST) && !TextLeq(HOST, CONTENT_LENGTH)
  {
    assert HOST[0] == 72 && CONTENT_LENGTH[0] == 67;
  }

  /** The headers: a value with blanks inside, and a line without a colon, which repeats that value. */
  lemma ExampleHeaders(body: seq<byte>)
    ensures var lines := HOST_LINE + CRLF + [88];
      && ReadHeaders(lines, [], []) == [(HOST, [97, 98]), ([88], [97, 98])]
      && FindToken(lines + (BLANK_LINE + body), BLANK_LINE) == Some(|lines|)
  {
    hide FindToken, ReadLine, SetHeader, ReadHeaders, TextLeq;
    var lines := HOST_LINE + CRLF + [88];
    var l := HOST + [COLON] + ([SPACE, SPACE] + [97] + [SPACE] + [98] + [CR]);
    assert l == HOST_LINE + [CR];
    assert lines == l + [LF] + [88];
    LineThen(l, [88], [], []);
    ReadLineOf(HOST, [97], [98], []);
    assert [97] + [98] == [97, 98];
    ReadLineBare([88], [97, 98]);
    LineLast([88], [97, 98], [(HOST, [97, 98])]);
    ExampleOrder();
    SetOrder((HOST, [97, 98]), ([88], [97, 98]), []);
    OnlyHeader(HOST, [97, 98]);
    FindFirst([88], BLANK_LINE, body);
    assert [88] + BLANK_LINE + body == [88] + (BLANK_LINE + body);
    FoundAfterLine(HOST_LINE, [88], BLANK_LINE + body);
  }

  lemma OnlyHeader(k: seq<byte>, v: seq<byte>)
    ensures SetHeader([], k, v) == [(k, v)]
  {
  }

  lemma ExampleStart()
    ensures Text("get /Metrics http/1.1\r\n") == GET_LOWER + [SPACE] + METRICS + [SPACE] + VERSION_LOWER + CRLF
  {
  }

  lemma ExampleLines()
    ensures Text("Host:  a b\r\nX") == HOST_LINE + CRLF + [88] && Text("\r\n\r\nhi") == BLANK_LINE + [104, 105]
  {
  }

  lemma ExampleTexts()
    ensures Text("/metrics") == METRICS_LOWER && Text("Host") == HOST && Text("hi") == [104, 105]
    ensures Text("X") == [88] && Text("ab") == [97, 98] && Text("2") == [50]
  {
  }

  /** A whole request: method, path and version in other cases than the request keeps, "Host:  a b", a
      bare line "X" and the content "hi". */
  lemma ParsedRequest()
    ensures Parse(Text("get /Metrics http/1.1\r\n") + (Text("Host:  a b\r\nX") + Text("\r\n\r\nhi"))) ==
      Some(Request(GET, Text("/metrics"),
                   [(CONTENT_LENGTH, Text("2")), (Text("Host"), Text("ab")), (Text("X"), Text("ab"))], Text("hi")))
  {
    hide Parse, Text, Reads, NoSpaces, Upper, Lower, FindToken, ReadHeaders, SetHeader, ToString, MethodName;
    ExampleStart();
    ExampleLines();
    ExampleTexts();
    ExampleWords();
    var body: seq<byte> := [104, 105];
    ExampleHeaders(body);
    var lines := HOST_LINE + CRLF + [88];
    ParseWhole(GET_LOWER, METRICS, VERSION_LOWER, lines, body, GET);
    ExampleLength();
    var start := GET_LOWER + [SPACE] + METRICS + [SPACE] + VERSION_LOWER + CRLF;
    assert Started(GET_LOWER, METRICS, VERSION_LOWER, lines + (BLANK_LINE + body))
      == start + (lines + (BLANK_LINE + body));
    var h: (seq<byte>, seq<byte>), x: (seq<byte>, seq<byte>) := (HOST, [97, 98]), ([88], [97, 98]);
    assert [(CONTENT_LENGTH, [50])] + [h, x] == [(CONTENT_LENGTH, [50]), h, x];
  }

  lemma ExampleLength()
    ensures var hs: Headers := [(HOST, [97, 98]), ([88], [97, 98])];
      SetHeader(hs, CONTENT_LENGTH, ToString(2)) == [(CONTENT_LENGTH, [50])] + hs
  {
    ExampleOrder();
    hide TextLeq;
    assert ToString(2) == [50];
    assert HOST[0] != CONTENT_LENGTH[0];
  }

  lemma PrintedTexts()
    ensures Text("GET /metrics HTTP/1.1\r\n") == MethodText(GET) + [SPACE] + METRICS_LOWER + [SPACE] + VERSION + CRLF
  {
  }

  lemma PrintedLines()
    ensures Text("Content-Length: 2\r\n") == CONTENT_LENGTH + [COLON, SPACE] + [50] + CRLF
    ensures Text("Host: ab\r\n") == HOST + [COLON, SPACE] + [97, 98] + CRLF && Text("\r\nhi") == CRLF + [104, 105]
  {
  }

  /** A printed request, line by line. */
  lemma PrintedRequest()
    ensures Print(Request(GET, METRICS_LOWER, [(CONTENT_LENGTH, [50]), (HOST, [97, 98])], [104, 105])) ==
      Text("GET /metrics HTTP/1.1\r\n") + (Text("Content-Length: 2\r\n") + Text("Host: ab\r\n")) + Text("\r\nhi")
  {
    hide Text, MethodText;
    PrintedTexts();
    PrintedLines();
    var hs: Headers := [(CONTENT_LENGTH, [50]), (HOST, [97, 98])];
    assert hs[1..] == [hs[1]] && hs[1..][1..] == [];
    assert Lines(hs[1..]) == Line(hs[1]) + CRLF + Lines([]);
    assert Lines(hs) == (Line(hs[0]) + CRLF) + (Line(hs[1]) + CRLF);
  }
}
