/** The request parser of code/http/http_request.cpp: a four-state machine that eats one line at
    a time from the read buffer. */
module HttpRequests {
  import opened Text
  import opened ByteBuffer

  datatype ParseState = REQUEST_LINE | HEADERS | BODY | FINISH

  /** The parser's fields. */
  datatype Request = Request(state: ParseState, verb: string, path: string, version: string,
                             body: string, header: map<string, string>, post: map<string, string>)

  const BLANK := Request(REQUEST_LINE, "", "", "", "", map[], map[])

  const DEFAULT_HTML: set<string> :=
    {"/index", "/register", "/login", "/welcome", "/video", "/picture"}

  const DEFAULT_HTML_TAG: map<string, int> := map["/register.html" := 0, "/login.html" := 1]

  const FORM_TYPE := "application/x-www-form-urlencoded"

  /** The database's answer for a name, a password and "is this a login". */
  type Verifier = (string, string, bool) -> bool

  // ---------- The regular expressions, as the splits they denote ----------

  /** `^([^ ]*) ([^ ]*) HTTP/([^ ]*)$` */
  function SplitRequestLine(line: string): Option<(string, string, string)> {
    match Cut(line, ' ')
    case None => None
    case Some((m, rest)) =>
      match Cut(rest, ' ')
      case None => None
      case Some((p, tail)) =>
        if "HTTP/" <= tail && ' ' !in tail then Some((m, p, tail[5..])) else None
  }

  ghost predicate RequestLineMatch(line: string, m: string, p: string, v: string) {
    line == m + " " + (p + " " + ("HTTP/" + v)) && ' ' !in m && ' ' !in p && ' ' !in v
  }

  /** The split succeeds with exactly the groups of the expression's match. */
  lemma SplitRequestLineIsTheMatch(line: string, m: string, p: string, v: string)
    ensures SplitRequestLine(line) == Some((m, p, v)) <==> RequestLineMatch(line, m, p, v)
  {
    var tail := "HTTP/" + v;
    assert tail[5..] == v;
    if RequestLineMatch(line, m, p, v) {
      CutIs(line, m, ' ', p + " " + tail);
      CutIs(p + " " + tail, p, ' ', tail);
    }
    if SplitRequestLine(line) == Some((m, p, v)) {
      var rest := Cut(line, ' ').value.1;
      assert Cut(rest, ' ').value.1 == tail;
    }
  }

  /** `^([^:]*): ?(.*)$` */
  function SplitHeader(line: string): Option<(string, string)> {
    match Cut(line, ':')
    case None => None
    case Some((name, rest)) =>
      var value := if rest != "" && rest[0] == ' ' then rest[1..] else rest;
      if SingleLine(value) then Some((name, value)) else None
  }

  /** The optional space is taken whenever it is there. */
  ghost predicate HeaderMatch(line: string, name: string, value: string) {
    && ':' !in name && '\r' !in value && '\n' !in value
    && (line == name + ":" + (" " + value) || (line == name + ":" + value && !(" " <= value)))
  }

  lemma SplitHeaderIsTheMatch(line: string, name: string, value: string)
    ensures SplitHeader(line) == Some((name, value)) <==> HeaderMatch(line, name, value)
  {
    assert (" " + value)[1..] == value;
    if line == name + ":" + (" " + value) && ':' !in name {
      CutIs(line, name, ':', " " + value);
    } else if line == name + ":" + value && ':' !in name {
      CutIs(line, name, ':', value);
    }
    if SplitHeader(line) == Some((name, value)) {
      var rest := Cut(line, ':').value.1;
      assert rest == " " + value || rest == value;
    }
  }

  /** One printed header line; the space after the colon is optional unless the value starts
      with one. */
  datatype Field = Field(name: string, value: string, spaced: bool) {
    function Line(): string { name + ":" + (if spaced then " " else "") + value }

    ghost predicate Clean() {
      && ':' !in name && CrlfFree(name) && SingleLine(value)
      && (value != "" && value[0] == ' ' ==> spaced)
    }
  }

  lemma LineIsCrlfFree(f: Field)
    requires f.Clean()
    ensures CrlfFree(f.Line())
  {
    var rest := ":" + (if f.spaced then " " else "") + f.value;
    assert f.Line() == f.name + rest;
    forall i | 0 <= i < |f.Line()|
      ensures !CrlfAt(f.Line(), i)
    {
      if i < |f.name| {
        assert !CrlfAt(f.name, i);
      }
    }
  }

  /** One key=value pair and the text behind it. */
  datatype Found = Found(key: string, value: string, rest: string)

  /** `(?!&)(.*?)=(.*?)(?=&|$)`: the leftmost match, each group as short as possible.  Every match
      contains its '=', so a search always makes progress. */
  function SearchPair(s: string): (r: Option<Found>)
    ensures r.Some? ==> |r.value.rest| < |s|
  {
    if s == "" then None
    else if s[0] == '&' then SearchPair(s[1..])
    else
      match Cut(s, '=')
      case None => None
      case Some((key, t)) =>
        var (value, rest) := Span(t, '&');
        if SingleLine(key) && SingleLine(value) then Some(Found(key, value, rest))
        else SearchPair(s[1..])
  }

  /** The expression matches at the very start of `t`, with groups of any length. */
  ghost predicate CanMatch(t: string) {
    && t != "" && t[0] != '&'
    && exists k, v, r :: PairMatch(t, k, v, r)
  }

  ghost predicate PairMatch(t: string, k: string, v: string, r: string) {
    && t == k + "=" + (v + r) && (r == "" || r[0] == '&')
    && '\r' !in k && '\n' !in k && '\r' !in v && '\n' !in v
  }

  /** If the expression matches at all at a place, the shortest groups match there. */
  lemma ShortestGroupsMatch(t: string, k: string, v: string, r: string)
    requires t != "" && t[0] != '&' && PairMatch(t, k, v, r)
    ensures SearchPair(t).Some? && var f := SearchPair(t).value; PairMatch(t, f.key, f.value, f.rest)
  {
    assert t == k + ("=" + (v + r));
    SpanIsShortest(t, k, '=', "=" + (v + r));
    assert t[|k|] == '=';
    var (key, u) := Cut(t, '=').value;
    ShortestValue(t, k + "=" + v, key, u, r);
  }

  lemma ShortestValue(t: string, head: string, key: string, u: string, r: string)
    requires t == head + r && t == key + "=" + u && |key| < |head|
    requires SingleLine(head) && (r == "" || r[0] == '&')
    ensures SingleLine(key) && SingleLine(Span(u, '&').0)
  {
    var w := head[|key| + 1..];
    assert u == t[|key| + 1..] == w + r;
    SpanIsShortest(u, w, '&', r);
    assert key == t[..|key|] == head[..|key|];
  }

  /** The search returns a match at the leftmost place that has one, and fails only if none has. */
  lemma {:induction false} SearchPairIsLeftmost(s: string) returns (at: nat)
    ensures SearchPair(s).None? ==> at == |s|
    ensures SearchPair(s).Some? ==> var f := SearchPair(s).value;
              at < |s| && s[at] != '&' && PairMatch(s[at..], f.key, f.value, f.rest)
    ensures forall i | 0 <= i < at && i < |s| :: !CanMatch(s[i..])
    decreases |s|
  {
    if s == "" {
      return 0;
    }
    assert s[0..] == s;
    if CanMatch(s) {
      var k, v, r :| PairMatch(s, k, v, r);
      ShortestGroupsMatch(s, k, v, r);
      return 0;
    }
    if s[0] != '&' && '=' in s {
      var f := Cut(s, '=').value;
      var g := Span(f.1, '&');
      assert s == f.0 + "=" + (g.0 + g.1);
      assert !PairMatch(s, f.0, g.0, g.1);
    } else if s[0] != '&' {
      NoEqualsNoMatch(s);
      return |s|;
    }
    at := SearchPairIsLeftmost(s[1..]);
    forall i | 0 <= i < at + 1 && i < |s|
      ensures !CanMatch(s[i..])
    {
      if i > 0 { assert s[i..] == s[1..][i - 1..]; }
    }
    assert s[1..][at..] == s[at + 1..];
    at := at + 1;
  }

  lemma NoEqualsNoMatch(s: string)
    requires '=' !in s
    ensures forall i | 0 <= i < |s| :: !CanMatch(s[i..])
  {
    forall i, k, v, r | 0 <= i < |s|
      ensures !PairMatch(s[i..], k, v, r)
    {
      assert (k + "=" + (v + r))[|k|] == '=';
      assert forall c | c in s[i..] :: c in s;
    }
  }

  // ---------- Form data ----------

  /** The pairs of a form text, added to `post` from left to right. */
  function DecodeForm(s: string, post: map<string, string>): map<string, string>
    decreases |s|
  {
    match SearchPair(s)
    case None => post
    case Some(f) => DecodeForm(f.rest, post[f.key := f.value])
  }

  function JoinForm(pairs: seq<(string, string)>): string {
    if pairs == [] then ""
    else if |pairs| == 1 then pairs[0].0 + "=" + pairs[0].1
    else pairs[0].0 + "=" + pairs[0].1 + "&" + JoinForm(pairs[1..])
  }

  /** Later pairs overwrite earlier ones. */
  function LastWins(pairs: seq<(string, string)>, init: map<string, string>): map<string, string> {
    if pairs == [] then init else LastWins(pairs[1..], init[pairs[0].0 := pairs[0].1])
  }

  ghost predicate FormSafe(pairs: seq<(string, string)>) {
    forall i | 0 <= i < |pairs| ::
      && '=' !in pairs[i].0 && '&' !in pairs[i].0 && '&' !in pairs[i].1
      && SingleLine(pairs[i].0) && SingleLine(pairs[i].1)
  }

  lemma SearchFindsPair(k: string, v: string, rest: string)
    requires '=' !in k && '&' !in k && '&' !in v && SingleLine(k) && SingleLine(v)
    requires rest == "" || rest[0] == '&'
    ensures SearchPair(k + "=" + v + rest) == Some(Found(k, v, rest))
    ensures SearchPair("&" + (k + "=" + v + rest)) == Some(Found(k, v, rest))
  {
    var s := k + "=" + v + rest;
    assert s == k + ['='] + (v + rest);
    CutIs(s, k, '=', v + rest);
    SpanIs(v + rest, v, '&', rest);
    assert s[0] != '&';
    assert ("&" + s)[1..] == s;
  }

  /** Decoding a joined form gives back its pairs, the last one winning for a repeated key. */
  lemma {:induction false} DecodeUndoesJoin(pairs: seq<(string, string)>, post: map<string, string>)
    requires FormSafe(pairs)
    ensures DecodeForm(JoinForm(pairs), post) == LastWins(pairs, post)
    ensures pairs != [] ==> DecodeForm("&" + JoinForm(pairs), post) == LastWins(pairs, post)
    decreases |pairs|
  {
    if pairs != [] {
      var (k, v) := pairs[0];
      var rest := if |pairs| == 1 then "" else "&" + JoinForm(pairs[1..]);
      assert JoinForm(pairs) == k + "=" + v + rest;
      SearchFindsPair(k, v, rest);
      DecodeUndoesJoin(pairs[1..], post[k := v]);
    }
  }

  // ---------- What the parser computes ----------

  function PathImage(path: string): string {
    if path == "/" then "/index.html"
    else if path in DEFAULT_HTML then path + ".html"
    else path
  }

  /** `operator[]` on an unordered_map: a missing key is created empty. */
  function Touched(m: map<string, string>, key: string): (r: map<string, string>)
    ensures key in r
  {
    if key in m then m else m[key := ""]
  }

  function Verified(name: string, pwd: string, isLogin: bool, verify: Verifier): bool {
    name != "" && pwd != "" && verify(name, pwd, isLogin)
  }

  /** What a body line does to a POST request. */
  function PostStep(q: Request, verify: Verifier): Request {
    if q.verb != "POST" then q
    else
      var h := Touched(q.header, "Content-Type");
      var q1 := q.(header := h);
      if h["Content-Type"] != FORM_TYPE then q1
      else
        var decoded := if q.body == "" then q.post else DecodeForm(q.body, q.post);
        if q.path !in DEFAULT_HTML_TAG then q1.(post := decoded)
        else
          var p := Touched(Touched(decoded, "username"), "password");
          var isLogin := DEFAULT_HTML_TAG[q.path] == 1;
          q1.(post := p,
              path := if Verified(p["username"], p["password"], isLogin, verify) then "/welcome.html"
                      else "/error.html")
  }

  /** One line, with `readable` bytes still in the buffer including that line; None when the
      request line is malformed. */
  function LineStep(q: Request, line: string, readable: nat, verify: Verifier): Option<Request> {
    match q.state
    case REQUEST_LINE =>
      (match SplitRequestLine(line)
       case None => None
       case Some((m, p, v)) => Some(q.(state := HEADERS, verb := m, path := PathImage(p), version := v)))
    case HEADERS =>
      var q1 := match SplitHeader(line)
                case None => q.(state := BODY)
                case Some((name, value)) => q.(header := q.header[name := value]);
      Some(if readable <= 2 then q1.(state := FINISH) else q1)
    case BODY => Some(PostStep(q.(body := line), verify).(state := FINISH))
    case FINISH => Some(q)
  }

  datatype Parsed = Parsed(ok: bool, request: Request, rest: string)

  /** The line loop over the unread bytes. */
  function Lines(q: Request, input: string, verify: Verifier): Parsed
    decreases |input|
  {
    if input == "" || q.state == FINISH then Parsed(true, q, input)
    else
      var end := FindCrlf(input);
      match LineStep(q, input[..end], |input|, verify)
      case None => Parsed(false, q, input)
      case Some(q1) =>
        if end == |input| then Parsed(true, q1, if q1.verb == "POST" && q1.state == FINISH then "" else input)
        else Lines(q1, input[end + 2..], verify)
  }

  function ParseText(q: Request, input: string, verify: Verifier): Parsed {
    if input == "" then Parsed(false, q, "") else Lines(q, input, verify)
  }

  /** `HttpRequest::IsKeepAlive`. */
  predicate KeepAlive(q: Request) {
    "Connection" in q.header && q.header["Connection"] == "keep-alive" && q.version == "1.1"
  }

  // ---------- Printing a request, and parsing it back ----------

  function PrintFields(fields: seq<Field>): string {
    if fields == [] then "" else fields[0].Line() + CRLF + PrintFields(fields[1..])
  }

  function PrintRequest(verb: string, path: string, version: string, fields: seq<Field>, body: string): string {
    verb + " " + (path + " " + ("HTTP/" + version)) + CRLF + (PrintFields(fields) + (CRLF + body))
  }

  function HeaderMap(fields: seq<Field>, init: map<string, string>): map<string, string> {
    if fields == [] then init else HeaderMap(fields[1..], init[fields[0].name := fields[0].value])
  }

  ghost predicate LineSafe(s: string) { ' ' !in s && SingleLine(s) }

  ghost predicate CleanFields(fields: seq<Field>) { forall i | 0 <= i < |fields| :: fields[i].Clean() }

  lemma StepOver(q: Request, line: string, rest: string, verify: Verifier)
    requires CrlfFree(line) && q.state != FINISH
    requires LineStep(q, line, |line + CRLF + rest|, verify).Some?
    ensures Lines(q, line + CRLF + rest, verify)
         == Lines(LineStep(q, line, |line + CRLF + rest|, verify).value, rest, verify)
  {
    var input := line + CRLF + rest;
    FindCrlfAfter(line, rest);
    assert input[..|line|] == line && input[|line| + 2..] == rest;
  }

  lemma CleanFieldMatches(f: Field)
    requires f.Clean()
    ensures SplitHeader(f.Line()) == Some((f.name, f.value))
  {
    if f.spaced {
      assert f.Line() == f.name + ":" + (" " + f.value);
    } else {
      assert f.Line() == f.name + ":" + f.value;
    }
    SplitHeaderIsTheMatch(f.Line(), f.name, f.value);
  }

  lemma HeaderIsRead(q: Request, f: Field, rest: string, verify: Verifier)
    requires q.state == HEADERS && f.Clean() && rest != ""
    ensures Lines(q, f.Line() + CRLF + rest, verify)
         == Lines(q.(header := q.header[f.name := f.value]), rest, verify)
  {
    LineIsCrlfFree(f);
    CleanFieldMatches(f);
    StepOver(q, f.Line(), rest, verify);
  }

  lemma {:induction false} HeadersAreRead(q: Request, fields: seq<Field>, tail: string, verify: Verifier)
    requires q.state == HEADERS && CleanFields(fields) && tail != ""
    ensures Lines(q, PrintFields(fields) + tail, verify)
         == Lines(q.(header := HeaderMap(fields, q.header)), tail, verify)
    decreases |fields|
  {
    if fields == [] {
      assert PrintFields(fields) + tail == tail;
    } else {
      var f := fields[0];
      var rest := PrintFields(fields[1..]) + tail;
      assert PrintFields(fields) + tail == f.Line() + CRLF + rest;
      HeaderIsRead(q, f, rest, verify);
      HeadersAreRead(q.(header := q.header[f.name := f.value]), fields[1..], tail, verify);
    }
  }

  /** Any line without a colon ends the head, not only the blank one. */
  lemma OtherLineEndsTheHead(q: Request, line: string, rest: string, verify: Verifier)
    requires q.state == HEADERS && CrlfFree(line) && ':' !in line && rest != ""
    ensures Lines(q, line + CRLF + rest, verify) == Lines(q.(state := BODY), rest, verify)
  {
    StepOver(q, line, rest, verify);
  }

  lemma BlankLineEndsTheHead(q: Request, body: string, verify: Verifier)
    requires q.state == HEADERS
    ensures Lines(q, CRLF + body, verify)
         == if body == "" then Parsed(true, q.(state := FINISH), "") else Lines(q.(state := BODY), body, verify)
  {
    assert CRLF + body == "" + CRLF + body;
    StepOver(q, "", body, verify);
  }

  /** What is left in the buffer after the body line. */
  function BodyRest(verb: string, body: string): string {
    var end := FindCrlf(body);
    if end < |body| then body[end + 2..] else if verb == "POST" then "" else body
  }

  /** The request a printed text stands for: its body is the first body line. */
  function Expected(verb: string, path: string, version: string, fields: seq<Field>, body: string,
                    verify: Verifier): Request {
    var head := Request(HEADERS, verb, PathImage(path), version, "", HeaderMap(fields, map[]), map[]);
    if body == "" then head.(state := FINISH)
    else PostStep(head.(state := BODY, body := body[..FindCrlf(body)]), verify).(state := FINISH)
  }

  lemma RequestLineIsRead(verb: string, path: string, version: string, rest: string, verify: Verifier)
    requires LineSafe(verb) && LineSafe(path) && LineSafe(version)
    ensures var line := verb + " " + (path + " " + ("HTTP/" + version));
            ParseText(BLANK, line + CRLF + rest, verify)
            == Lines(Request(HEADERS, verb, PathImage(path), version, "", map[], map[]), rest, verify)
  {
    hide Lines, PathImage;
    var line := verb + " " + (path + " " + ("HTTP/" + version));
    SplitRequestLineIsTheMatch(line, verb, path, version);
    assert SingleLine(line);
    StepOver(BLANK, line, rest, verify);
  }

  lemma HeadIsRead(verb: string, path: string, version: string, fields: seq<Field>, body: string,
                   verify: Verifier)
    requires LineSafe(verb) && LineSafe(path) && LineSafe(version) && CleanFields(fields)
    ensures ParseText(BLANK, PrintRequest(verb, path, version, fields, body), verify)
         == Lines(Request(HEADERS, verb, PathImage(path), version, "", HeaderMap(fields, map[]), map[]),
                  CRLF + body, verify)
  {
    var q := Request(HEADERS, verb, PathImage(path), version, "", map[], map[]);
    var tail := CRLF + body;
    RequestLineIsRead(verb, path, version, PrintFields(fields) + tail, verify);
    HeadersAreRead(q, fields, tail, verify);
    hide Lines, HeaderMap, PathImage;
  }

  /** The body line: everything up to the first CRLF, and what stays in the buffer after it. */
  lemma BodyIsRead(q: Request, body: string, verify: Verifier)
    requires q.state == BODY && body != ""
    ensures Lines(q, body, verify)
         == Parsed(true, PostStep(q.(body := body[..FindCrlf(body)]), verify).(state := FINISH), BodyRest(q.verb, body))
  {
  }

  /** Parsing undoes printing: every printed request is accepted, the parser finishes, every part
      is recovered with the last of repeated headers winning, and what remains in the buffer is
      known exactly. */
  lemma ParseUndoesPrint(verb: string, path: string, version: string, fields: seq<Field>, body: string,
                         verify: Verifier)
    requires LineSafe(verb) && LineSafe(path) && LineSafe(version) && CleanFields(fields)
    ensures ParseText(BLANK, PrintRequest(verb, path, version, fields, body), verify)
         == Parsed(true, Expected(verb, path, version, fields, body, verify),
                   if body == "" then "" else BodyRest(verb, body))
  {
    var q := Request(HEADERS, verb, PathImage(path), version, "", HeaderMap(fields, map[]), map[]);
    HeadIsRead(verb, path, version, fields, body, verify);
    BlankLineEndsTheHead(q, body, verify);
    if body != "" { BodyIsRead(q.(state := BODY), body, verify); }
    hide ParseText, PrintRequest, Lines, PathImage, HeaderMap, PostStep, BodyRest;
  }

  /** The body survives exactly when it has no CRLF, and then the buffer is emptied exactly when
      there was no body or the request is a POST. */
  lemma BodyRecoveredIff(verb: string, path: string, version: string, fields: seq<Field>, body: string,
                         verify: Verifier)
    requires LineSafe(verb) && LineSafe(path) && LineSafe(version) && CleanFields(fields)
    ensures var r := ParseText(BLANK, PrintRequest(verb, path, version, fields, body), verify);
            && (r.request.body == body <==> CrlfFree(body))
            && (CrlfFree(body) ==> (r.rest == "" <==> body == "" || verb == "POST"))
  {
    ParseUndoesPrint(verb, path, version, fields, body, verify);
    var end := FindCrlf(body);
    assert end < |body| ==> CrlfAt(body, end);
    if end == |body| { assert body[..end] == body; }
  }

  // ---------- What becomes of a request ----------

  /** The path a request line asks for: the start page, a page's short name completed, or the path. */
  lemma PathIsCompleted(path: string)
    ensures PathImage(path) ==
            if path == "/" then "/index.html"
            else if path == "/index" || path == "/register" || path == "/login" || path == "/welcome"
                    || path == "/video" || path == "/picture" then path + ".html"
            else path
  {
  }

  /** A connection is kept alive exactly when the last Connection header asks for it, in version 1.1. */
  lemma KeptAliveIff(verb: string, path: string, version: string, fields: seq<Field>, body: string,
                     verify: Verifier)
    requires LineSafe(verb) && LineSafe(path) && LineSafe(version) && CleanFields(fields)
    ensures var h := HeaderMap(fields, map[]);
            KeepAlive(ParseText(BLANK, PrintRequest(verb, path, version, fields, body), verify).request)
            <==> "Connection" in h && h["Connection"] == "keep-alive" && version == "1.1"
  {
    ParseUndoesPrint(verb, path, version, fields, body, verify);
    var head := Request(BODY, verb, PathImage(path), version, body[..FindCrlf(body)], HeaderMap(fields, map[]), map[]);
    BodyKeepsHead(head, verify);
    hide ParseText, PrintRequest, HeaderMap, PathImage, PostStep, FindCrlf;
  }

  /** The body changes neither version nor method, and no header but the missing content type. */
  lemma BodyKeepsHead(q: Request, verify: Verifier)
    ensures var r := PostStep(q, verify);
            && r.version == q.version && r.verb == q.verb
            && ("Connection" in r.header <==> "Connection" in q.header)
            && ("Connection" in q.header ==> r.header["Connection"] == q.header["Connection"])
  {
    hide DecodeForm, Verified;
  }

  /** A header's value is that of the last line with its name. */
  lemma {:induction false} LastHeaderWins(fields: seq<Field>, init: map<string, string>, i: nat)
    requires i < |fields| && forall j | i < j < |fields| :: fields[j].name != fields[i].name
    ensures fields[i].name in HeaderMap(fields, init) && HeaderMap(fields, init)[fields[i].name] == fields[i].value
    decreases |fields|
  {
    var init1 := init[fields[0].name := fields[0].value];
    if i > 0 {
      LastHeaderWins(fields[1..], init1, i - 1);
    } else {
      forall j | 0 <= j < |fields[1..]|
        ensures fields[1..][j].name != fields[0].name
      {
        assert fields[1..][j] == fields[j + 1];
      }
      OtherHeadersLeave(fields[1..], init1, fields[0].name);
    }
  }

  lemma {:induction false} OtherHeadersLeave(fields: seq<Field>, init: map<string, string>, name: string)
    requires name in init && forall j | 0 <= j < |fields| :: fields[j].name != name
    ensures name in HeaderMap(fields, init) && HeaderMap(fields, init)[name] == init[name]
    decreases |fields|
  {
    if fields != [] {
      assert fields[0].name != name;
      OtherHeadersLeave(fields[1..], init[fields[0].name := fields[0].value], name);
    }
  }

  /** Without a form in a POST body the path is only completed, and nothing is decoded. */
  lemma OnlyAFormIsDecoded(verb: string, path: string, version: string, fields: seq<Field>, body: string,
                           verify: Verifier)
    requires LineSafe(verb) && LineSafe(path) && LineSafe(version) && CleanFields(fields)
    requires var h := HeaderMap(fields, map[]);
             body == "" || verb != "POST" || "Content-Type" !in h
             || h["Content-Type"] != "application/x-www-form-urlencoded"
    ensures var r := ParseText(BLANK, PrintRequest(verb, path, version, fields, body), verify).request;
            r.path == PathImage(path) && r.post == map[] && r.verb == verb && r.version == version
  {
    ParseUndoesPrint(verb, path, version, fields, body, verify);
    var head := Request(BODY, verb, PathImage(path), version, body[..FindCrlf(body)], HeaderMap(fields, map[]), map[]);
    if body != "" { NoFormIsLeft(head, verify); }
    hide ParseText, PrintRequest, HeaderMap, PathImage, PostStep, FindCrlf;
  }

  lemma NoFormIsLeft(q: Request, verify: Verifier)
    requires q.verb != "POST" || "Content-Type" !in q.header
             || q.header["Content-Type"] != "application/x-www-form-urlencoded"
    ensures var r := PostStep(q, verify);
            r.path == q.path && r.post == q.post && r.verb == q.verb && r.version == q.version
  {
    hide DecodeForm, Verified;
  }

  function FieldOr(m: map<string, string>, key: string): string { if key in m then m[key] else "" }

  function FormAnswer(form: map<string, string>, isLogin: bool, verify: Verifier): string {
    var name, password := FieldOr(form, "username"), FieldOr(form, "password");
    if name != "" && password != "" && verify(name, password, isLogin) then "/welcome.html" else "/error.html"
  }

  /** A form posted to the login or the registration page: the visitor is welcomed exactly when both a
      name and a password are given and the database agrees, for a login or for a registration.  A form
      posted anywhere else leaves the path as it is. */
  lemma FormDecides(path: string, version: string, fields: seq<Field>, pairs: seq<(string, string)>, verify: Verifier)
    requires LineSafe(path) && LineSafe(version) && CleanFields(fields) && FormSafe(pairs) && pairs != []
    requires var h := HeaderMap(fields, map[]);
             "Content-Type" in h && h["Content-Type"] == "application/x-www-form-urlencoded"
    ensures var r := ParseText(BLANK, PrintRequest("POST", path, version, fields, JoinForm(pairs)), verify).request;
            var form := LastWins(pairs, map[]);
            var name := if "username" in form then form["username"] else "";
            var password := if "password" in form then form["password"] else "";
            var given := name != "" && password != "";
            && (path == "/login" || path == "/login.html" ==>
                  r.path == if given && verify(name, password, true) then "/welcome.html" else "/error.html")
            && (path == "/register" || path == "/register.html" ==>
                  r.path == if given && verify(name, password, false) then "/welcome.html" else "/error.html")
            && (path != "/login" && path != "/login.html" && path != "/register" && path != "/register.html" ==>
                  r.path == PathImage(path))
            && (forall key | key in form :: key in r.post && r.post[key] == form[key])
            && (forall key | key in r.post && key !in form ::
                  (key == "username" || key == "password") && r.post[key] == "")
  {
    var body := JoinForm(pairs);
    JoinedIsOneLine(pairs);
    assert body[..|body|] == body;
    ParseUndoesPrint("POST", path, version, fields, body, verify);
    var head := Request(BODY, "POST", PathImage(path), version, body, HeaderMap(fields, map[]), map[]);
    FormStep(head, pairs, verify);
    FormPages(path);
    hide ParseText, PrintRequest, HeaderMap, JoinForm, LastWins, PathImage, PostStep, FindCrlf;
  }

  /** Which pages take a form. */
  lemma FormPages(path: string)
    ensures PathImage(path) == "/login.html" <==> path == "/login" || path == "/login.html"
    ensures PathImage(path) == "/register.html" <==> path == "/register" || path == "/register.html"
  {
    PathIsCompleted(path);
    hide PathImage;
    SameEnd(path, "/login", ".html");
    SameEnd(path, "/register", ".html");
    assert "/login" + ".html" == "/login.html" && "/register" + ".html" == "/register.html";
    assert "/index" + ".html" == "/index.html" && "/welcome" + ".html" == "/welcome.html";
    assert "/video" + ".html" == "/video.html" && "/picture" + ".html" == "/picture.html";
  }

  lemma SameEnd(a: string, b: string, end: string)
    ensures a + end == b + end ==> a == b
  {
    assert (a + end)[..|a + end| - |end|] == a && (b + end)[..|b + end| - |end|] == b;
  }

  ghost predicate PostsForm(q: Request, pairs: seq<(string, string)>) {
    && q.verb == "POST" && q.post == map[] && FormSafe(pairs) && q.body == JoinForm(pairs) != ""
    && "Content-Type" in q.header && q.header["Content-Type"] == "application/x-www-form-urlencoded"
  }

  /** What a form body does. */
  lemma FormStep(q: Request, pairs: seq<(string, string)>, verify: Verifier)
    requires PostsForm(q, pairs)
    ensures var r, form := PostStep(q, verify), LastWins(pairs, map[]);
            && r.path == (if q.path == "/login.html" then FormAnswer(form, true, verify)
                          else if q.path == "/register.html" then FormAnswer(form, false, verify)
                          else q.path)
            && (forall key | key in form :: key in r.post && r.post[key] == form[key])
            && (forall key | key in r.post && key !in form ::
                  (key == "username" || key == "password") && r.post[key] == "")
  {
    DecodeUndoesJoin(pairs, map[]);
    var form := LastWins(pairs, map[]);
    hide DecodeForm, JoinForm, LastWins, FormSafe;
    TouchedTwice(form);
    assert q.path in DEFAULT_HTML_TAG <==> q.path == "/login.html" || q.path == "/register.html";
    hide Touched;
  }

  lemma TouchedTwice(form: map<string, string>)
    ensures var post := Touched(Touched(form, "username"), "password");
            && "username" in post && post["username"] == FieldOr(form, "username")
            && "password" in post && post["password"] == FieldOr(form, "password")
            && (forall key | key in form :: key in post && post[key] == form[key])
            && (forall key | key in post && key !in form :: (key == "username" || key == "password") && post[key] == "")
  {
  }

  lemma OneLineHasNoCrlf(s: string)
    requires SingleLine(s)
    ensures FindCrlf(s) == |s|
  {
    assert CrlfFree(s);
  }

  lemma {:induction false} JoinedIsOneLine(pairs: seq<(string, string)>)
    requires FormSafe(pairs) && pairs != []
    ensures JoinForm(pairs) != "" && SingleLine(JoinForm(pairs)) && FindCrlf(JoinForm(pairs)) == |JoinForm(pairs)|
    decreases |pairs|
  {
    if |pairs| > 1 { JoinedIsOneLine(pairs[1..]); }
    var body := JoinForm(pairs);
    assert SingleLine(pairs[0].0) && SingleLine(pairs[0].1);
    assert SingleLine(body);
    OneLineHasNoCrlf(body);
  }

  /** After the request line nothing can fail. */
  lemma OnlyTheRequestLineFails(q: Request, input: string, verify: Verifier)
    ensures ParseText(q, input, verify).ok
            <==> input != "" && (q.state == REQUEST_LINE ==> SplitRequestLine(input[..FindCrlf(input)]).Some?)
  {
    if input != "" && q.state != FINISH {
      var end := FindCrlf(input);
      match LineStep(q, input[..end], |input|, verify)
      case None =>
      case Some(q1) =>
        if end < |input| { LaterLinesSucceed(q1, input[end + 2..], verify); }
    }
  }

  lemma {:induction false} LaterLinesSucceed(q: Request, input: string, verify: Verifier)
    requires q.state != REQUEST_LINE
    ensures Lines(q, input, verify).ok
    decreases |input|
  {
    if input != "" && q.state != FINISH {
      var end := FindCrlf(input);
      var q1 := LineStep(q, input[..end], |input|, verify).value;
      if end < |input| { LaterLinesSucceed(q1, input[end + 2..], verify); }
    }
  }

  /** A rejected request leaves no trace: no field is set and nothing is consumed. */
  lemma RejectedIsUntouched(input: string, verify: Verifier)
    ensures var p := ParseText(BLANK, input, verify); !p.ok ==> p.request == BLANK && p.rest == input
  {
    if input != "" {
      var end := FindCrlf(input);
      LinesOnce(BLANK, input, end, verify);
      hide Lines, FindCrlf, PathImage, SplitRequestLine;
      match LineStep(BLANK, input[..end], |input|, verify)
      case None =>
      case Some(q) => if end < |input| { LaterLinesSucceed(q, input[end + 2..], verify); }
    }
  }

  lemma LinesOnce(q: Request, input: string, end: nat, verify: Verifier)
    requires input != "" && q.state != FINISH && end == FindCrlf(input)
    ensures match LineStep(q, input[..end], |input|, verify)
            case None => Lines(q, input, verify) == Parsed(false, q, input)
            case Some(q1) =>
              if end == |input| then
                Lines(q, input, verify)
                == Parsed(true, q1, if q1.verb == "POST" && q1.state == FINISH then "" else input)
              else
                Lines(q, input, verify) == Lines(q1, input[end + 2..], verify)
  {
  }

  lemma LinesStop(q: Request, input: string, verify: Verifier)
    requires input == "" || q.state == FINISH
    ensures Lines(q, input, verify) == Parsed(true, q, input)
  {
  }

  // ---------- The parser object ----------

  class HttpRequest {
    var state: ParseState
    var verb: string
    var path: string
    var version: string
    var body: string
    var header: map<string, string>
    var post: map<string, string>

    function Snapshot(): Request
      reads this
    {
      Request(state, verb, path, version, body, header, post)
    }

    constructor ()
      ensures Snapshot() == BLANK
    {
      state, verb, path, version, body, header, post := REQUEST_LINE, "", "", "", "", map[], map[];
    }

    method Init()
      modifies this
      ensures Snapshot() == BLANK
    {
      verb, path, version, body := "", "", "", "";
      state := REQUEST_LINE;
      header := map[];
      post := map[];
    }

    predicate IsKeepAlive()
      reads this
    {
      KeepAlive(Snapshot())
    }

    method ParseRequestLine(line: string) returns (ok: bool)
      modifies this
      ensures ok <==> SplitRequestLine(line).Some?
      ensures !ok ==> Snapshot() == old(Snapshot())
      ensures ok ==> RequestLineMatch(line, verb, path, version)
      ensures ok ==> Snapshot() == old(Snapshot()).(state := HEADERS, verb := verb, path := path, version := version)
    {
      var subMatch := SplitRequestLine(line);
      if subMatch.Some? {
        verb, path, version := subMatch.value.0, subMatch.value.1, subMatch.value.2;
        SplitRequestLineIsTheMatch(line, verb, path, version);
        state := HEADERS;
        return true;
      }
      return false;
    }

    method ParsePath()
      modifies this`path
      ensures path == PathImage(old(path))
    {
      if path == "/" {
        path := "/index.html";
      } else if path in DEFAULT_HTML {
        path := path + ".html";
      }
    }

    method ParseHeader(line: string)
      modifies this`header, this`state
      ensures SplitHeader(line).None? ==> state == BODY && header == old(header)
      ensures SplitHeader(line).Some? ==>
                state == old(state) && header == old(header)[SplitHeader(line).value.0 := SplitHeader(line).value.1]
    {
      var subMatch := SplitHeader(line);
      if subMatch.Some? {
        header := header[subMatch.value.0 := subMatch.value.1];
      } else {
        state := BODY;
      }
    }

    /** Repeated search, each one starting where the last match ended. */
    method ParseFromUrlEncoded()
      modifies this`post
      ensures post == if body == "" then old(post) else DecodeForm(body, old(post))
    {
      if body == "" { return; }
      var remaining := body;
      var subMatch := SearchPair(remaining);
      while subMatch.Some?
        invariant body == old(body) && subMatch == SearchPair(remaining)
        invariant DecodeForm(remaining, post) == DecodeForm(body, old(post))
        decreases |remaining|
      {
        post := post[subMatch.value.key := subMatch.value.value];
        remaining := subMatch.value.rest;
        subMatch := SearchPair(remaining);
      }
    }

    method ParsePost(verify: Verifier)
      modifies this`header, this`post, this`path
      ensures Snapshot() == PostStep(old(Snapshot()), verify)
    {
      if verb == "POST" {
        header := Touched(header, "Content-Type");
        if header["Content-Type"] == FORM_TYPE {
          ParseFromUrlEncoded();
          if path in DEFAULT_HTML_TAG {
            var tag := DEFAULT_HTML_TAG[path];
            if tag == 0 || tag == 1 {
              post := Touched(Touched(post, "username"), "password");
              if Verified(post["username"], post["password"], tag == 1, verify) {
                path := "/welcome.html";
              } else {
                path := "/error.html";
              }
            }
          }
        }
      }
    }

    method ParseBody(line: string, verify: Verifier)
      modifies this
      ensures Snapshot() == PostStep(old(Snapshot()).(body := line), verify).(state := FINISH)
    {
      body := line;
      ParsePost(verify);
      state := FINISH;
    }

    /** The switch over the parser state. */
    method ParseLine(line: string, readable: nat, verify: Verifier) returns (good: bool)
      modifies this
      ensures good <==> LineStep(old(Snapshot()), line, readable, verify).Some?
      ensures good ==> LineStep(old(Snapshot()), line, readable, verify) == Some(Snapshot())
      ensures !good ==> Snapshot() == old(Snapshot())
    {
      match state {
        case REQUEST_LINE =>
          good := ParseRequestLine(line);
          if !good {
            return;
          }
          SplitRequestLineIsTheMatch(line, verb, path, version);
          ParsePath();
        case HEADERS =>
          ParseHeader(line);
          if readable <= 2 {
            state := FINISH;
          }
        case BODY => ParseBody(line, verify);
        case FINISH =>
      }
      good := true;
    }

    method Parse(buff: Buffer, verify: Verifier) returns (ok: bool)
      requires buff.Valid()
      modifies this, buff`readPos
      ensures buff.Valid()
      ensures Parsed(ok, Snapshot(), buff.Content()) == ParseText(old(Snapshot()), old(buff.Content()), verify)
    {
      hide Lines, LineStep;
      if buff.ReadableBytes() <= 0 {
        return false;
      }
      ghost var target := Lines(Snapshot(), buff.Content(), verify);
      while buff.ReadableBytes() != 0 && state != FINISH
        invariant buff.Valid() && Lines(Snapshot(), buff.Content(), verify) == target
        decreases buff.ReadableBytes()
      {
        var input := buff.Content();
        var lineEnd := FindCrlf(input);
        ghost var q := Snapshot();
        var good := ParseLine(input[..lineEnd], buff.ReadableBytes(), verify);
        LinesOnce(q, input, lineEnd, verify);
        if !good {
          return false;
        }
        if lineEnd == buff.ReadableBytes() {
          if verb == "POST" && state == FINISH {
            buff.Retrieve(lineEnd);
          }
          return true;
        }
        buff.Retrieve(lineEnd + 2);
      }
      LinesStop(Snapshot(), buff.Content(), verify);
      ok := true;
    }
  }
}
