/** Response assembly of code/http/http_response.cpp, over a snapshot of the file system. */
module HttpResponses {
  import opened Text
  import opened ByteBuffer
  import HttpRequests

  /** What `stat` reports about one path, and whether `open` and then `mmap` succeed on it. */
  datatype FileInfo = FileInfo(isDir: bool, otherRead: bool, opens: bool, bytes: string)

  type FileSystem = map<string, FileInfo>

  /** An empty file cannot be mapped. */
  ghost predicate Mappable(fs: FileSystem) {
    forall p | p in fs && fs[p].opens :: fs[p].bytes != ""
  }

  function TypeOfSuffix(suffix: string): (t: string)
    ensures SingleLine(t)
  {
    if suffix == ".html" then "text/html"
    else if suffix == ".xml" then "text/xml"
    else if suffix == ".xhtml" then "application/xhtml+xml"
    else if suffix == ".txt" then "text/plain"
    else if suffix == ".rtf" then "application/rtf"
    else if suffix == ".pdf" then "application/pdf"
    else if suffix == ".word" then "application/msword"
    else if suffix == ".png" then "image/png"
    else if suffix == ".gif" then "image/gif"
    else if suffix == ".jpg" then "image/jpeg"
    else if suffix == ".jpeg" then "image/jpeg"
    else if suffix == ".au" then "audio/basic"
    else if suffix == ".mpeg" then "video/mpeg"
    else if suffix == ".mpg" then "video/mpeg"
    else if suffix == ".avi" then "video/x-msvideo"
    else if suffix == ".gz" then "application/x-gzip"
    else if suffix == ".tar" then "application/x-tar"
    else if suffix == ".css" then "text/css "
    else if suffix == ".js" then "text/javascript "
    else "text/plain"
  }

  function StatusText(code: int): Option<string> {
    match code
    case 200 => Some("OK")
    case 400 => Some("Bad Request")
    case 403 => Some("Forbidden")
    case 404 => Some("Not Found")
    case _ => None
  }

  function ErrorPath(code: int): Option<string> {
    match code
    case 400 => Some("/400.html")
    case 403 => Some("/403.html")
    case 404 => Some("/404.html")
    case _ => None
  }

  // ---------- What the response says ----------

  function ResolveCode(fs: FileSystem, full: string, code: int): int {
    if full !in fs || fs[full].isDir then 404
    else if !fs[full].otherRead then 403
    else if code == -1 then 200
    else code
  }

  function ResolvePath(path: string, code: int): string {
    match ErrorPath(code) case Some(p) => p case None => path
  }

  /** The code of the status line; an unknown one becomes 400. */
  function ShownCode(code: int): (c: int)
    ensures c == 200 || c == 400 || c == 403 || c == 404
  {
    if StatusText(code).Some? then code else 400
  }

  /** `path.find_last_of('.')` onwards. */
  function Suffix(path: string): Option<string> {
    if path == "" then None
    else match Suffix(path[1..])
      case Some(s) => Some(s)
      case None => if path[0] == '.' then Some(path) else None
  }

  function FileType(path: string): (t: string)
    ensures SingleLine(t)
  {
    match Suffix(path)
    case Some(s) => TypeOfSuffix(s)
    case None => "text/plain"
  }

  function StatusPhrase(code: int): (t: string)
    ensures SingleLine(t) && ':' !in t
  {
    StatusText(ShownCode(code)).value
  }

  function StatusLine(code: int): string {
    "HTTP/1.1 " + Decimal(ShownCode(code)) + " " + StatusPhrase(code)
  }

  function TypeLine(path: string): string { "Content-type: " + FileType(path) }

  function ConnectionLines(keepAlive: bool): seq<string> {
    if keepAlive then ["Connection: keep-alive"] + ["keep-alive: max=6, timeout=120"] else ["Connection: close"]
  }

  function HeadLines(code: int, keepAlive: bool, path: string): seq<string> {
    [StatusLine(code)] + ConnectionLines(keepAlive) + [TypeLine(path)]
  }

  function Concat(pieces: seq<string>): string {
    if pieces == [] then "" else pieces[0] + Concat(pieces[1..])
  }

  function ErrorBody(code: int, message: string): string {
    Concat(["<html><title>Error</title>", "<body bgcolor=\"ffffff\">",
            Decimal(ShownCode(code)), " : ", StatusPhrase(code), "\n",
            "<p>", message, "</p>", "<hr><em>TryWebServer</em></body></html>"])
  }

  /** The first four mapped bytes read as the integer -1. */
  predicate ReadsMinusOne(file: string) {
    |file| >= 4 && forall i | 0 <= i < 4 :: file[i] as int == 0xFF
  }

  /** The file that follows the head, if one can be mapped. */
  function MappedFile(fs: FileSystem, full: string): Option<string> {
    if full in fs && fs[full].opens && !ReadsMinusOne(fs[full].bytes) then Some(fs[full].bytes) else None
  }

  const NOT_FOUND := "File NotFound!"

  function BodyOf(fs: FileSystem, full: string, code: int): string {
    match MappedFile(fs, full) case Some(file) => file case None => ErrorBody(code, NOT_FOUND)
  }

  /** What follows the blank line: the file, the error page's file, or a built-in error page. */
  function Body(fs: FileSystem, srcDir: string, path: string, code: int): string {
    var c := ResolveCode(fs, srcDir + path, code);
    BodyOf(fs, srcDir + ResolvePath(path, c), c)
  }

  /** The file behind the head, if there is one. */
  function SentFile(fs: FileSystem, srcDir: string, path: string, code: int): Option<string> {
    MappedFile(fs, srcDir + ResolvePath(path, ResolveCode(fs, srcDir + path, code)))
  }

  function Joined(lines: seq<string>): string {
    if lines == [] then "" else lines[0] + CRLF + Joined(lines[1..])
  }

  function LengthLine(body: string): string { "Content-length: " + Decimal(|body|) }

  /** Status line, headers and blank line. */
  function HeadOf(code: int, keepAlive: bool, path: string, body: string): string {
    Joined(HeadLines(code, keepAlive, path)) + LengthLine(body) + CRLF + CRLF
  }

  function Head(fs: FileSystem, srcDir: string, path: string, keepAlive: bool, code: int): string {
    var c := ResolveCode(fs, srcDir + path, code);
    HeadOf(c, keepAlive, ResolvePath(path, c), Body(fs, srcDir, path, code))
  }

  // ---------- A receiver, independent of the sender ----------

  /** The length a header line announces. */
  function AnnouncedLength(line: string): Option<nat> {
    match HttpRequests.SplitHeader(line)
    case Some((name, value)) =>
      if name == "Content-length" && value != "" && AllDigits(value) then Some(DecimalValue(value)) else None
    case None => None
  }

  /** Reads lines up to the first empty one; returns the last length announced and what follows. */
  function ReceiveHead(s: string, length: Option<nat>): (r: Option<(Option<nat>, string)>)
    ensures r.Some? ==> |r.value.1| < |s|
    decreases |s|
  {
    var end := FindCrlf(s);
    if end == |s| then None
    else if end == 0 then Some((length, s[2..]))
    else
      var announced := AnnouncedLength(s[..end]);
      ReceiveHead(s[end + 2..], if announced.Some? then announced else length)
  }

  lemma ReceiveLine(line: string, rest: string, length: Option<nat>)
    requires CrlfFree(line) && line != ""
    ensures ReceiveHead(line + CRLF + rest, length)
         == ReceiveHead(rest, if AnnouncedLength(line).Some? then AnnouncedLength(line) else length)
  {
    var s := line + CRLF + rest;
    FindCrlfAfter(line, rest);
    assert s[..|line|] == line && s[|line| + 2..] == rest;
  }

  ghost predicate PlainLine(line: string) {
    line != "" && SingleLine(line) && AnnouncedLength(line) == None
  }

  ghost predicate PlainLines(lines: seq<string>) {
    forall i | 0 <= i < |lines| :: PlainLine(lines[i])
  }

  lemma {:induction false} ReceivePlainLines(lines: seq<string>, rest: string, length: Option<nat>)
    requires PlainLines(lines)
    ensures ReceiveHead(Joined(lines) + rest, length) == ReceiveHead(rest, length)
    decreases |lines|
  {
    if lines == [] {
      assert Joined(lines) + rest == rest;
    } else {
      var tail := Joined(lines[1..]) + rest;
      assert Joined(lines) + rest == lines[0] + CRLF + tail;
      ReceiveLine(lines[0], tail, length);
      ReceivePlainLines(lines[1..], rest, length);
    }
  }

  lemma NotALength(line: string, name: string, tail: string)
    requires line == name + ":" + tail && ':' !in name && name != "Content-length"
    requires SingleLine(name) && SingleLine(tail)
    ensures PlainLine(line)
  {
    CutIs(line, name, ':', tail);
  }

  lemma StatusLineIsPlain(code: int)
    ensures PlainLine(StatusLine(code))
  {
    var d := Decimal(ShownCode(code));
    DigitsOnly(d, ':');
    DigitsOnly(d, '\r');
    DigitsOnly(d, '\n');
    var version := "HTTP/1.1 ";
    assert ':' !in version && SingleLine(version);
    var phrase := StatusPhrase(code);
    assert StatusLine(code) == version + d + " " + phrase;
    assert ':' !in StatusLine(code) && SingleLine(StatusLine(code));
  }

  lemma KeepAliveIsPlain()
    ensures PlainLine("Connection: keep-alive")
  {
    NotALength("Connection: keep-alive", "Connection", " keep-alive");
  }

  lemma KeepAliveLimitsArePlain()
    ensures PlainLine("keep-alive: max=6, timeout=120")
  {
    NotALength("keep-alive: max=6, timeout=120", "keep-alive", " max=6, timeout=120");
  }

  lemma CloseIsPlain()
    ensures PlainLine("Connection: close")
  {
    NotALength("Connection: close", "Connection", " close");
  }

  lemma TypeLineIsPlain(path: string)
    ensures PlainLine(TypeLine(path))
  {
    NotALength(TypeLine(path), "Content-type", " " + FileType(path));
  }

  lemma Singleton(line: string)
    requires PlainLine(line)
    ensures PlainLines([line])
  {
  }

  lemma Concatenation(a: seq<string>, b: seq<string>)
    requires PlainLines(a) && PlainLines(b)
    ensures PlainLines(a + b)
  {
  }

  lemma ConnectionLinesArePlain(keepAlive: bool)
    ensures PlainLines(ConnectionLines(keepAlive))
  {
    if keepAlive {
      KeepAliveIsPlain();
      KeepAliveLimitsArePlain();
      Singleton("Connection: keep-alive");
      Singleton("keep-alive: max=6, timeout=120");
      Concatenation(["Connection: keep-alive"], ["keep-alive: max=6, timeout=120"]);
    } else {
      CloseIsPlain();
      Singleton("Connection: close");
    }
  }

  lemma HeadLinesArePlain(code: int, keepAlive: bool, path: string)
    ensures PlainLines(HeadLines(code, keepAlive, path))
  {
    StatusLineIsPlain(code);
    ConnectionLinesArePlain(keepAlive);
    TypeLineIsPlain(path);
    Singleton(StatusLine(code));
    Singleton(TypeLine(path));
    Concatenation([StatusLine(code)], ConnectionLines(keepAlive));
    Concatenation([StatusLine(code)] + ConnectionLines(keepAlive), [TypeLine(path)]);
  }

  lemma LengthLineAnnounces(n: nat)
    ensures SingleLine("Content-length: " + Decimal(n))
    ensures AnnouncedLength("Content-length: " + Decimal(n)) == Some(n)
  {
    var line := "Content-length: " + Decimal(n);
    DigitsOnly(Decimal(n), '\r');
    DigitsOnly(Decimal(n), '\n');
    assert line == "Content-length" + [':'] + (" " + Decimal(n));
    CutIs(line, "Content-length", ':', " " + Decimal(n));
    assert (" " + Decimal(n))[1..] == Decimal(n);
    DecimalRoundTrip(n);
  }

  /** The head is read up to its blank line, whatever follows. */
  lemma HeadIsReceived(lines: seq<string>, length: nat, tail: string)
    requires PlainLines(lines)
    ensures ReceiveHead(Joined(lines) + ("Content-length: " + Decimal(length)) + CRLF + CRLF + tail, None)
         == Some((Some(length), tail))
  {
    var line := "Content-length: " + Decimal(length);
    var rest := line + CRLF + (CRLF + tail);
    assert Joined(lines) + line + CRLF + CRLF + tail == Joined(lines) + rest;
    ReceivePlainLines(lines, rest, None);
    LengthLineAnnounces(length);
    ReceiveLine(line, CRLF + tail, None);
    assert CrlfAt(CRLF + tail, 0) && (CRLF + tail)[2..] == tail;
  }

  /** Framing: whatever the file system holds and whatever is sent next, a receiver that stops at the
      first empty line is left with the body and what follows it, and the announced length is the
      body's length. */
  lemma ResponseIsFramed(fs: FileSystem, srcDir: string, path: string, keepAlive: bool, code: int, next: string)
    ensures var body := Body(fs, srcDir, path, code);
            ReceiveHead(Head(fs, srcDir, path, keepAlive, code) + (body + next), None)
            == Some((Some(|body|), body + next))
  {
    hide Body, HeadLines, Decimal, ReceiveHead, PlainLines;
    var c := ResolveCode(fs, srcDir + path, code);
    var body := Body(fs, srcDir, path, code);
    HeadLinesArePlain(c, keepAlive, ResolvePath(path, c));
    HeadIsReceived(HeadLines(c, keepAlive, ResolvePath(path, c)), |body|, body + next);
  }

  /** A head that has been received is not changed by what comes behind it. */
  lemma {:induction false} HeadStaysReceived(s: string, length: Option<nat>, more: string)
    requires ReceiveHead(s, length).Some?
    ensures var r := ReceiveHead(s, length).value;
            ReceiveHead(s + more, length) == Some((r.0, r.1 + more))
    decreases |s|
  {
    hide AnnouncedLength, FindCrlf;
    var end := FindCrlf(s);
    FindCrlfStays(s, more);
    assert (s + more)[..end] == s[..end] && (s + more)[end + 2..] == s[end + 2..] + more;
    if end > 0 {
      var announced := AnnouncedLength(s[..end]);
      HeadStaysReceived(s[end + 2..], if announced.Some? then announced else length, more);
    }
  }

  lemma FindCrlfStays(s: string, more: string)
    requires FindCrlf(s) < |s|
    ensures FindCrlf(s + more) == FindCrlf(s)
  {
    var end := FindCrlf(s);
    assert CrlfAt(s + more, end);
    forall i | 0 <= i < end
      ensures !CrlfAt(s + more, i)
    {
      assert !CrlfAt(s, i);
    }
  }

  // ---------- Sizes ----------

  /** Every file leaves room for a head within a 31-bit length. */
  ghost predicate Manageable(fs: FileSystem) {
    forall p | p in fs :: |fs[p].bytes| <= 0x7FFF_FFFF - 1024
  }

  lemma {:induction false} DecimalLength(n: nat, digits: nat, limit: nat)
    requires digits > 0 && limit == Power10(digits) && n < limit
    ensures |Decimal(n)| <= digits
  {
    if n >= 10 { DecimalLength(n / 10, digits - 1, limit / 10); }
  }

  function Power10(k: nat): nat { if k == 0 then 1 else 10 * Power10(k - 1) }

  lemma {:induction false} ConcatLength(pieces: seq<string>, most: nat)
    requires forall i | 0 <= i < |pieces| :: |pieces[i]| <= most
    ensures |Concat(pieces)| <= |pieces| * most
  {
    if pieces != [] { ConcatLength(pieces[1..], most); }
  }

  lemma {:induction false} JoinedLength(lines: seq<string>, most: nat)
    requires forall i | 0 <= i < |lines| :: |lines[i]| + 2 <= most
    ensures |Joined(lines)| <= |lines| * most
  {
    if lines != [] { JoinedLength(lines[1..], most); }
  }

  lemma ErrorBodyLength(code: int)
    ensures |ErrorBody(code, NOT_FOUND)| <= 500
  {
    hide Concat;
    var digits := Decimal(ShownCode(code));
    CodeDigits(ShownCode(code));
    ConcatLength(["<html><title>Error</title>", "<body bgcolor=\"ffffff\">",
                  digits, " : ", StatusPhrase(code), "\n",
                  "<p>", NOT_FOUND, "</p>", "<hr><em>TryWebServer</em></body></html>"], 50);
  }

  lemma LinesAreShort(code: int, keepAlive: bool, path: string)
    ensures |HeadLines(code, keepAlive, path)| <= 4
    ensures forall i | 0 <= i < |HeadLines(code, keepAlive, path)| :: |HeadLines(code, keepAlive, path)[i]| + 2 <= 50
  {
    hide FileType, Decimal;
    CodeDigits(ShownCode(code));
    TypeIsShort(path);
  }

  lemma TypeIsShort(path: string)
    ensures |FileType(path)| <= 24
  {
    hide Suffix;
  }

  lemma HeadLength(code: int, keepAlive: bool, path: string, body: string)
    requires |body| < 0x8000_0000
    ensures |HeadOf(code, keepAlive, path, body)| <= 250
  {
    hide Joined, HeadLines, Decimal;
    LinesAreShort(code, keepAlive, path);
    JoinedLength(HeadLines(code, keepAlive, path), 50);
    DecimalLength(|body|, 10, Power10(10));
  }

  /** In a manageable file system, what is buffered stays below 1024 bytes, and a file leaves room for
      it within a 31-bit length. */
  lemma ResponseFits(fs: FileSystem, srcDir: string, path: string, keepAlive: bool, code: int)
    requires Manageable(fs)
    ensures |Head(fs, srcDir, path, keepAlive, code)| <= 250
    ensures |Body(fs, srcDir, path, code)| <=
            if SentFile(fs, srcDir, path, code).Some? then 0x7FFF_FFFF - 1024 else 500
  {
    hide HeadOf, ErrorBody, ResolvePath;
    var c := ResolveCode(fs, srcDir + path, code);
    ErrorBodyLength(c);
    HeadLength(c, keepAlive, ResolvePath(path, c), Body(fs, srcDir, path, code));
  }

  // ---------- What the status line tells ----------

  /** A file the server is willing to send. */
  predicate Served(fs: FileSystem, full: string) { full in fs && !fs[full].isDir && fs[full].otherRead }

  /** A file that can be served and opened is sent unless its first four bytes read as -1: then an
      error page stands in for it. */
  lemma FileIsSentIff(fs: FileSystem, srcDir: string, path: string)
    requires Served(fs, srcDir + path) && fs[srcDir + path].opens
    ensures var bytes := fs[srcDir + path].bytes;
            Body(fs, srcDir, path, 200) != bytes
            <==> |bytes| >= 4 && bytes[0] as int == bytes[1] as int == bytes[2] as int == bytes[3] as int == 255
  {
    if ReadsMinusOne(fs[srcDir + path].bytes) { ErrorBodyOpens(200); }
    hide ErrorBody;
  }

  lemma ErrorBodyOpens(code: int)
    ensures ErrorBody(code, NOT_FOUND) != "" && ErrorBody(code, NOT_FOUND)[0] == '<'
  {
    hide Decimal;
  }

  predicate StartsWithStatus(head: string, code: int) { StatusLine(code) + CRLF <= head }

  /** The status line tells a response's resolved code, and no other known one. */
  lemma StatusIsShown(fs: FileSystem, srcDir: string, path: string, keepAlive: bool, code: int, c: int)
    requires StatusText(c).Some? && StatusText(ResolveCode(fs, srcDir + path, code)).Some?
    ensures StartsWithStatus(Head(fs, srcDir, path, keepAlive, code), c)
            <==> c == ResolveCode(fs, srcDir + path, code)
  {
    hide StatusText, ResolveCode, ResolvePath, StatusLine, Body;
    var r := ResolveCode(fs, srcDir + path, code);
    var rest := AfterStatus(r, keepAlive, ResolvePath(path, r), Body(fs, srcDir, path, code));
    assert Head(fs, srcDir, path, keepAlive, code) == StatusLine(r) + CRLF + rest;
    if StartsWithStatus(StatusLine(r) + CRLF + rest, c) { PrefixShowsCode(r, c, rest); }
  }

  lemma PrefixShowsCode(r: int, c: int, rest: string)
    requires StatusText(c).Some? && StatusText(r).Some? && StartsWithStatus(StatusLine(r) + CRLF + rest, c)
    ensures c == r
  {
    hide StatusText, StatusLine;
    var s := StatusLine(r) + CRLF + rest;
    var tail := s[|StatusLine(c) + CRLF|..];
    assert s == (StatusLine(c) + CRLF) + tail;
    Regroup(StatusLine(c), CRLF, tail);
    Regroup(StatusLine(r), CRLF, rest);
    CodeIsReadBack(r, CRLF + rest);
    CodeIsReadBack(c, CRLF + tail);
  }

  /** The head without its status line. */
  function AfterStatus(code: int, keepAlive: bool, path: string, body: string): (rest: string)
    ensures HeadOf(code, keepAlive, path, body) == StatusLine(code) + CRLF + rest
  {
    var lines := ConnectionLines(keepAlive) + [TypeLine(path)];
    assert HeadLines(code, keepAlive, path) == [StatusLine(code)] + lines;
    Joined(lines) + LengthLine(body) + CRLF + CRLF
  }

  /** The status lines, spelled out. */
  lemma StatusLinesAre()
    ensures StatusLine(200) == "HTTP/1.1 " + "200" + " " + "OK"
    ensures StatusLine(400) == "HTTP/1.1 " + "400" + " " + "Bad Request"
    ensures StatusLine(403) == "HTTP/1.1 " + "403" + " " + "Forbidden"
    ensures StatusLine(404) == "HTTP/1.1 " + "404" + " " + "Not Found"
  {
    DecimalIs(200, "200");
    DecimalIs(400, "400");
    DecimalIs(403, "403");
    DecimalIs(404, "404");
    hide Decimal;
  }

  lemma DecimalIs(n: nat, digits: string)
    requires 100 <= n < 1000 && |digits| == 3
    requires digits == [DigitChar(n / 100)] + [DigitChar(n / 10 % 10)] + [DigitChar(n % 10)]
    ensures Decimal(n) == digits
  {
    assert n / 10 / 10 == n / 100;
    assert Decimal(n / 100) == [DigitChar(n / 100)];
    assert Decimal(n / 10) == Decimal(n / 100) + [DigitChar(n / 10 % 10)];
    assert Decimal(n) == Decimal(n / 10) + [DigitChar(n % 10)];
  }

  // ---------- What a client reads in the header lines ----------

  /** The header lines up to the first empty line, as names and values. */
  function Headers(s: string): seq<(string, string)>
    decreases |s|
  {
    var end := FindCrlf(s);
    if end == |s| || end == 0 then []
    else
      (match HttpRequests.SplitHeader(s[..end]) case Some(h) => [h] case None => []) + Headers(s[end + 2..])
  }

  function HeaderOf(line: string): seq<(string, string)> {
    match HttpRequests.SplitHeader(line) case Some(h) => [h] case None => []
  }

  lemma FirstLine(line: string, rest: string)
    requires CrlfFree(line) && line != ""
    ensures Headers(line + CRLF + rest) == HeaderOf(line) + Headers(rest)
  {
    var s := line + CRLF + rest;
    FindCrlfAfter(line, rest);
    assert s[..|line|] == line && s[|line| + 2..] == rest;
    hide FindCrlf, HttpRequests.SplitHeader;
  }

  lemma NoMoreLines(rest: string)
    ensures Headers(CRLF + rest) == []
  {
    assert CrlfAt(CRLF + rest, 0);
  }

  lemma NameAndValue(line: string, name: string, value: string)
    requires line == name + ":" + (" " + value) && ':' !in name && SingleLine(value)
    ensures HeaderOf(line) == [(name, value)]
  {
    HttpRequests.SplitHeaderIsTheMatch(line, name, value);
  }

  lemma NoColon(line: string)
    requires ':' !in line
    ensures HeaderOf(line) == []
  {
  }

  function Pairs(lines: seq<string>): seq<(string, string)> {
    if lines == [] then [] else HeaderOf(lines[0]) + Pairs(lines[1..])
  }

  lemma {:induction false} LinesAreUnderstood(lines: seq<string>, rest: string)
    requires PlainLines(lines)
    ensures Headers(Joined(lines) + rest) == Pairs(lines) + Headers(rest)
    decreases |lines|
  {
    hide HeaderOf, FindCrlf;
    if lines == [] {
      assert Joined(lines) + rest == rest;
    } else {
      var tail := Joined(lines[1..]) + rest;
      assert Joined(lines) + rest == lines[0] + CRLF + tail;
      FirstLine(lines[0], tail);
      LinesAreUnderstood(lines[1..], rest);
      hide Headers;
      PairsBehind(HeaderOf(lines[0]), Pairs(lines[1..]), Headers(rest));
    }
  }

  lemma PairsBehind(a: seq<(string, string)>, b: seq<(string, string)>, c: seq<(string, string)>)
    ensures (a + b) + c == a + (b + c)
  {
  }

  lemma StayingPairs()
    ensures HeaderOf("Connection: keep-alive") == [("Connection", "keep-alive")]
  {
    NameAndValue("Connection: keep-alive", "Connection", "keep-alive");
  }

  lemma LimitPairs()
    ensures HeaderOf("keep-alive: max=6, timeout=120") == [("keep-alive", "max=6, timeout=120")]
  {
    NameAndValue("keep-alive: max=6, timeout=120", "keep-alive", "max=6, timeout=120");
  }

  lemma ClosingPairs()
    ensures HeaderOf("Connection: close") == [("Connection", "close")]
  {
    NameAndValue("Connection: close", "Connection", "close");
  }

  lemma ConnectionPairs(keepAlive: bool)
    ensures Pairs(ConnectionLines(keepAlive)) ==
            if keepAlive then [("Connection", "keep-alive")] + [("keep-alive", "max=6, timeout=120")]
            else [("Connection", "close")]
  {
    hide HeaderOf, Pairs;
    StayingPairs();
    LimitPairs();
    ClosingPairs();
    PairsConcat(["Connection: keep-alive"], ["keep-alive: max=6, timeout=120"]);
    OnePair("Connection: keep-alive");
    OnePair("keep-alive: max=6, timeout=120");
    OnePair("Connection: close");
  }

  lemma {:induction false} PairsConcat(a: seq<string>, b: seq<string>)
    ensures Pairs(a + b) == Pairs(a) + Pairs(b)
  {
    hide HeaderOf;
    if a == [] {
      assert a + b == b;
    } else {
      assert (a + b)[1..] == a[1..] + b;
      PairsConcat(a[1..], b);
      PairsBehind(HeaderOf(a[0]), Pairs(a[1..]), Pairs(b));
    }
  }

  lemma OnePair(line: string)
    ensures Pairs([line]) == HeaderOf(line)
  {
    hide HeaderOf;
    assert [line][1..] == [];
  }

  /** What a client reads: whether the connection stays, the type of what was sent, and its length. */
  lemma HeadIsUnderstood(code: int, keepAlive: bool, path: string, body: string, next: string)
    ensures Headers(HeadOf(code, keepAlive, path, body) + next) ==
            (if keepAlive then [("Connection", "keep-alive")] + [("keep-alive", "max=6, timeout=120")]
             else [("Connection", "close")])
            + [("Content-type", FileType(path)), ("Content-length", Decimal(|body|))]
  {
    hide Headers, Joined, ConnectionLines, FileType, Decimal, Pairs, HeaderOf, StatusLine, LengthLine;
    var lines, length := HeadLines(code, keepAlive, path), LengthLine(body);
    HeadLinesArePlain(code, keepAlive, path);
    assert HeadOf(code, keepAlive, path, body) + next == Joined(lines) + (length + CRLF + (CRLF + next));
    LinesAreUnderstood(lines, length + CRLF + (CRLF + next));
    LengthIsUnderstood(body, next);
    StatusLineHasNoColon(code);
    NoColon(StatusLine(code));
    ConnectionPairs(keepAlive);
    TypeIsUnderstood(path);
    PairsConcat([StatusLine(code)] + ConnectionLines(keepAlive), [TypeLine(path)]);
    PairsConcat([StatusLine(code)], ConnectionLines(keepAlive));
    OnePair(StatusLine(code));
    OnePair(TypeLine(path));
  }

  lemma LengthIsUnderstood(body: string, next: string)
    ensures Headers(LengthLine(body) + CRLF + (CRLF + next)) == [("Content-length", Decimal(|body|))]
  {
    hide Headers, HeaderOf, Decimal;
    var length := LengthLine(body);
    LengthLineAnnounces(|body|);
    DigitsOnly(Decimal(|body|), '\r');
    DigitsOnly(Decimal(|body|), '\n');
    NameAndValue(length, "Content-length", Decimal(|body|));
    FirstLine(length, CRLF + next);
    NoMoreLines(next);
  }

  lemma TypeIsUnderstood(path: string)
    ensures HeaderOf(TypeLine(path)) == [("Content-type", FileType(path))]
  {
    hide HeaderOf, FileType;
    NameAndValue(TypeLine(path), "Content-type", FileType(path));
  }

  lemma StatusLineHasNoColon(code: int)
    ensures ':' !in StatusLine(code)
  {
    var d := Decimal(ShownCode(code));
    DigitsOnly(d, ':');
    var version := "HTTP/1.1 ";
    assert ':' !in version && ':' !in StatusPhrase(code);
    assert StatusLine(code) == version + d + " " + StatusPhrase(code);
  }

  /** The built-in error page, spelled out. */
  lemma ErrorBodyIs(code: int)
    requires StatusText(code).Some?
    ensures ErrorBody(code, NOT_FOUND) ==
            "<html><title>Error</title>" + ("<body bgcolor=\"ffffff\">" + (Decimal(code) + (" : " + (
            StatusText(code).value + ("\n" + ("<p>" + ("File NotFound!" + ("</p>" +
            "<hr><em>TryWebServer</em></body></html>"))))))))
  {
    hide Decimal;
    PiecesJoined(["<html><title>Error</title>", "<body bgcolor=\"ffffff\">",
                  Decimal(ShownCode(code)), " : ", StatusPhrase(code), "\n",
                  "<p>", NOT_FOUND, "</p>", "<hr><em>TryWebServer</em></body></html>"]);
  }

  lemma PiecesJoined(p: seq<string>)
    requires |p| == 10
    ensures Concat(p) == p[0] + (p[1] + (p[2] + (p[3] + (p[4] + (p[5] + (p[6] + (p[7] + (p[8] + p[9]))))))))
  {
    forall k | 0 <= k < 10
      ensures Concat(p[k..]) == p[k] + Concat(p[k + 1..])
    {
      assert p[k..][1..] == p[k + 1..];
    }
    assert p[10..] == [] && p[0..] == p && p[9] + "" == p[9];
    hide Concat;
    assert Concat(p[9..]) == p[9] && Concat(p[8..]) == p[8] + Concat(p[9..]);
    assert Concat(p[7..]) == p[7] + Concat(p[8..]) && Concat(p[6..]) == p[6] + Concat(p[7..]);
    assert Concat(p[5..]) == p[5] + Concat(p[6..]) && Concat(p[4..]) == p[4] + Concat(p[5..]);
    assert Concat(p[3..]) == p[3] + Concat(p[4..]) && Concat(p[2..]) == p[2] + Concat(p[3..]);
    assert Concat(p[1..]) == p[1] + Concat(p[2..]);
  }

  /** Which file is shown: the one asked for, or the page of what is wrong with it. */
  lemma ShownFileIs(fs: FileSystem, srcDir: string, path: string, code: int)
    requires code == 200 || code == 400
    ensures var full := srcDir + path;
            var shown := if full !in fs || fs[full].isDir then "/404.html" else if !fs[full].otherRead then "/403.html"
                         else if code == 400 then "/400.html" else path;
            ResolvePath(path, ResolveCode(fs, full, code)) == shown
  {
  }

  // ---------- The type of a file ----------

  /** A path's suffix is what its last dot begins. */
  lemma {:induction false} SuffixIsTheLast(path: string)
    ensures Suffix(path).None? <==> '.' !in path
    ensures Suffix(path).Some? ==> var s := Suffix(path).value;
              |s| <= |path| && path[|path| - |s|..] == s && s != "" && s[0] == '.' && '.' !in s[1..]
  {
    if path != "" {
      SuffixIsTheLast(path[1..]);
      assert path == [path[0]] + path[1..];
      var s := Suffix(path[1..]);
      if s.Some? {
        assert path[|path| - |s.value|..] == path[1..][|path| - 1 - |s.value|..];
      } else {
        assert path[|path| - |path|..] == path;
      }
    }
  }

  lemma {:induction false} SuffixBehind(stem: string, s: string)
    requires s != "" && s[0] == '.' && '.' !in s[1..]
    ensures Suffix(stem + s) == Some(s)
  {
    if stem != "" {
      assert (stem + s)[1..] == stem[1..] + s;
      SuffixBehind(stem[1..], s);
    } else {
      assert stem + s == s;
      SuffixIsTheLast(s[1..]);
    }
  }

  lemma TypeBehind(stem: string, suffix: string)
    requires suffix != "" && suffix[0] == '.' && '.' !in suffix[1..]
    ensures FileType(stem + suffix) == TypeOfSuffix(suffix)
  {
    SuffixBehind(stem, suffix);
    hide Suffix, TypeOfSuffix;
  }

  /** Pages, behind any stem. */
  lemma PageTypes(stem: string)
    ensures FileType(stem + ".html") == "text/html"
    ensures FileType(stem + ".xml") == "text/xml"
    ensures FileType(stem + ".xhtml") == "application/xhtml+xml"
  {
    TypeBehind(stem, ".html");
    TypeBehind(stem, ".xml");
    TypeBehind(stem, ".xhtml");
    hide FileType, Suffix;
  }

  /** Texts. */
  lemma TextTypes(stem: string)
    ensures FileType(stem + ".txt") == "text/plain"
    ensures FileType(stem + ".rtf") == "application/rtf"
  {
    TypeBehind(stem, ".txt");
    TypeBehind(stem, ".rtf");
    hide FileType, Suffix;
  }

  /** Documents. */
  lemma DocumentTypes(stem: string)
    ensures FileType(stem + ".pdf") == "application/pdf"
    ensures FileType(stem + ".word") == "application/msword"
  {
    TypeBehind(stem, ".pdf");
    TypeBehind(stem, ".word");
    hide FileType, Suffix;
  }

  /** Images. */
  lemma ImageTypes(stem: string)
    ensures FileType(stem + ".png") == "image/png"
    ensures FileType(stem + ".gif") == "image/gif"
  {
    TypeBehind(stem, ".png");
    TypeBehind(stem, ".gif");
    hide FileType, Suffix;
  }

  /** Photographs. */
  lemma PhotoTypes(stem: string)
    ensures FileType(stem + ".jpg") == "image/jpeg"
    ensures FileType(stem + ".jpeg") == "image/jpeg"
  {
    TypeBehind(stem, ".jpg");
    TypeBehind(stem, ".jpeg");
    hide FileType, Suffix;
  }

  /** Sound and film. */
  lemma MediaTypes(stem: string)
    ensures FileType(stem + ".au") == "audio/basic"
    ensures FileType(stem + ".mpeg") == "video/mpeg"
  {
    TypeBehind(stem, ".au");
    TypeBehind(stem, ".mpeg");
    hide FileType, Suffix;
  }

  /** Film. */
  lemma FilmTypes(stem: string)
    ensures FileType(stem + ".mpg") == "video/mpeg"
    ensures FileType(stem + ".avi") == "video/x-msvideo"
  {
    TypeBehind(stem, ".mpg");
    TypeBehind(stem, ".avi");
    hide FileType, Suffix;
  }

  /** Archives. */
  lemma ArchiveTypes(stem: string)
    ensures FileType(stem + ".gz") == "application/x-gzip"
    ensures FileType(stem + ".tar") == "application/x-tar"
  {
    TypeBehind(stem, ".gz");
    TypeBehind(stem, ".tar");
    hide FileType, Suffix;
  }

  /** Styles and scripts. */
  lemma ScriptTypes(stem: string)
    ensures FileType(stem + ".css") == "text/css "
    ensures FileType(stem + ".js") == "text/javascript "
  {
    TypeBehind(stem, ".css");
    TypeBehind(stem, ".js");
    hide FileType, Suffix;
  }

  /** Behind any other suffix it is sent as plain text. */
  lemma UnlistedType(stem: string, suffix: string)
    requires suffix != "" && suffix[0] == '.' && '.' !in suffix[1..]
    requires suffix != ".html" && suffix != ".xml" && suffix != ".xhtml" && suffix != ".rtf" && suffix != ".pdf"
             && suffix != ".word" && suffix != ".png" && suffix != ".gif" && suffix != ".jpg" && suffix != ".jpeg"
             && suffix != ".au" && suffix != ".mpeg" && suffix != ".mpg" && suffix != ".avi" && suffix != ".gz"
             && suffix != ".tar" && suffix != ".css" && suffix != ".js"
    ensures FileType(stem + suffix) == "text/plain"
  {
    TypeBehind(stem, suffix);
    hide FileType, Suffix;
  }

  /** A path without a dot is sent as plain text. */
  lemma NoSuffix(path: string)
    requires '.' !in path
    ensures FileType(path) == "text/plain"
  {
    SuffixIsTheLast(path);
    hide Suffix;
  }

  /** The three characters after the protocol version are the code. */
  lemma CodeIsReadBack(code: int, rest: string)
    requires StatusText(code).Some?
    ensures var s := StatusLine(code) + rest; |s| >= 12 && s[9..12] == Decimal(code)
    ensures AllDigits(Decimal(code)) && DecimalValue(Decimal(code)) == code
  {
    CodeDigits(code);
    DecimalRoundTrip(code);
  }

  lemma CodeDigits(code: int)
    requires StatusText(code).Some?
    ensures |Decimal(code)| == 3 && ShownCode(code) == code
  {
    assert |Decimal(code / 100)| == 1;
    assert |Decimal(code / 10)| == 2 by { assert code / 10 / 10 == code / 100; }
  }

  // ---------- The response object ----------

  function ConnectionTail(keepAlive: bool): string {
    if keepAlive then "keep-alive" + CRLF else "close" + CRLF
  }

  const KEEP_ALIVE_LIMITS := "keep-alive: max=6, timeout=120" + CRLF

  lemma ConnectionText(keepAlive: bool)
    ensures Joined(ConnectionLines(keepAlive))
         == ("Connection: " + ConnectionTail(keepAlive)) + if keepAlive then KEEP_ALIVE_LIMITS else ""
  {
    var lines := ConnectionLines(keepAlive);
    if keepAlive {
      assert lines[1..] == [lines[1]];
      assert Joined([lines[1]]) == KEEP_ALIVE_LIMITS;
    } else {
      assert lines == [lines[0]];
    }
  }

  lemma {:induction false} JoinedConcat(a: seq<string>, b: seq<string>)
    ensures Joined(a + b) == Joined(a) + Joined(b)
  {
    if a == [] {
      assert a + b == b;
    } else {
      assert (a + b)[1..] == a[1..] + b;
      JoinedConcat(a[1..], b);
    }
  }

  lemma JoinedThree(line: string, lines: seq<string>, last: string)
    ensures Joined([line] + lines + [last]) == line + CRLF + (Joined(lines) + (last + CRLF))
  {
    JoinedConcat([line] + lines, [last]);
    JoinedConcat([line], lines);
    assert Joined([last]) == last + CRLF;
  }

  lemma StagedText(before: string, lines: string, length: string)
    ensures (before + lines) + (length + CRLF + CRLF) == before + (lines + length + CRLF + CRLF)
  {
  }

  lemma SettledResponse(before: string, fs: FileSystem, srcDir: string, path: string, keepAlive: bool,
                        code: int, c: int, p: string)
    requires c == ResolveCode(fs, srcDir + path, code) && p == ResolvePath(path, c)
    ensures BodyOf(fs, srcDir + p, ShownCode(c)) == Body(fs, srcDir, path, code)
    ensures (before + Joined(HeadLines(c, keepAlive, p))) + (LengthLine(Body(fs, srcDir, path, code)) + CRLF + CRLF)
         == before + Head(fs, srcDir, path, keepAlive, code)
  {
    StagedText(before, Joined(HeadLines(c, keepAlive, p)), LengthLine(Body(fs, srcDir, path, code)));
  }

  class HttpResponse {
    var code: int
    var keepAlive: bool
    var path: string
    var srcDir: string
    var mmFile: Option<string>
    var fileSize: nat

    constructor ()
      ensures mmFile == None && fileSize == 0
    {
      code, keepAlive, path, srcDir, mmFile, fileSize := -1, false, "", "", None, 0;
    }

    method UnmapFile()
      modifies this`mmFile
      ensures mmFile == None
    {
      if mmFile.Some? {
        mmFile := None;
      }
    }

    method Init(srcDir: string, path: string, keepAlive: bool, code: int)
      requires srcDir != ""
      modifies this
      ensures this.srcDir == srcDir && this.path == path && this.keepAlive == keepAlive && this.code == code
      ensures mmFile == None && fileSize == 0
    {
      if mmFile.Some? { UnmapFile(); }
      this.code := code;
      this.keepAlive := keepAlive;
      this.path := path;
      this.srcDir := srcDir;
      mmFile := None;
      fileSize := 0;
    }

    /** Swaps in the error page of an error code. */
    method ErrorHtml(fs: FileSystem)
      modifies this`path, this`fileSize
      ensures path == ResolvePath(old(path), code)
      ensures srcDir + path in fs && (ErrorPath(code).Some? || old(fileSize) == |fs[srcDir + path].bytes|)
              ==> fileSize == |fs[srcDir + path].bytes|
    {
      if ErrorPath(code).Some? {
        path := ErrorPath(code).value;
        if srcDir + path in fs {
          fileSize := |fs[srcDir + path].bytes|;
        }
      }
    }

    method AddStateLine(buff: Buffer)
      requires buff.Valid()
      modifies this`code, buff, buff.data
      ensures buff.Valid() && (buff.data == old(buff.data) || fresh(buff.data))
      ensures code == ShownCode(old(code))
      ensures buff.Content() == old(buff.Content()) + (StatusLine(old(code)) + CRLF)
    {
      if StatusText(code).None? {
        code := 400;
      }
      buff.Append(StatusLine(code) + CRLF);
    }

    method AddConnection(buff: Buffer)
      requires buff.Valid()
      modifies buff, buff.data
      ensures buff.Valid() && (buff.data == old(buff.data) || fresh(buff.data))
      ensures buff.Content() == old(buff.Content()) + Joined(ConnectionLines(keepAlive))
    {
      ghost var before := buff.Content();
      buff.Append("Connection: ");
      buff.Append(ConnectionTail(keepAlive));
      Regroup(before, "Connection: ", ConnectionTail(keepAlive));
      if keepAlive {
        buff.Append(KEEP_ALIVE_LIMITS);
        Regroup(before, "Connection: " + ConnectionTail(keepAlive), KEEP_ALIVE_LIMITS);
      }
      ConnectionText(keepAlive);
    }

    method AddHeader(buff: Buffer)
      requires buff.Valid()
      modifies buff, buff.data
      ensures buff.Valid() && (buff.data == old(buff.data) || fresh(buff.data))
      ensures buff.Content() == old(buff.Content()) + (Joined(ConnectionLines(keepAlive)) + (TypeLine(path) + CRLF))
    {
      ghost var before := buff.Content();
      AddConnection(buff);
      buff.Append(TypeLine(path) + CRLF);
      Regroup(before, Joined(ConnectionLines(keepAlive)), TypeLine(path) + CRLF);
    }

    method ErrorContent(buff: Buffer, message: string)
      requires buff.Valid()
      modifies buff, buff.data
      ensures buff.Valid() && (buff.data == old(buff.data) || fresh(buff.data))
      ensures var body := ErrorBody(code, message);
              buff.Content() == old(buff.Content()) + (LengthLine(body) + CRLF + CRLF) + body
    {
      var body := ErrorBody(code, message);
      buff.Append(LengthLine(body) + CRLF + CRLF);
      buff.Append(body);
    }

    /** Announces and maps the file, or appends an error page. */
    method AddContent(buff: Buffer, fs: FileSystem)
      requires buff.Valid() && mmFile == None
      requires srcDir + path in fs ==> fileSize == |fs[srcDir + path].bytes|
      modifies this`mmFile, buff, buff.data
      ensures buff.Valid() && (buff.data == old(buff.data) || fresh(buff.data))
      ensures mmFile == MappedFile(fs, srcDir + path)
      ensures var body := BodyOf(fs, srcDir + path, code);
              var announced := old(buff.Content()) + (LengthLine(body) + CRLF + CRLF);
              && (mmFile.Some? ==> body == mmFile.value && buff.Content() == announced)
              && (mmFile.None? ==> buff.Content() == announced + body)
    {
      if srcDir + path !in fs || !fs[srcDir + path].opens {
        ErrorContent(buff, NOT_FOUND);
        return;
      }
      var mapped := fs[srcDir + path].bytes;
      if ReadsMinusOne(mapped) {
        ErrorContent(buff, NOT_FOUND);
        return;
      }
      mmFile := Some(mapped);
      buff.Append("Content-length: " + Decimal(fileSize) + CRLF + CRLF);
    }

    /** Settles the code, the file to send and its size. */
    method ChooseFile(fs: FileSystem)
      modifies this`code, this`path, this`fileSize
      ensures code == ResolveCode(fs, srcDir + old(path), old(code))
      ensures path == ResolvePath(old(path), code)
      ensures srcDir + path in fs ==> fileSize == |fs[srcDir + path].bytes|
    {
      if srcDir + path in fs { fileSize := |fs[srcDir + path].bytes|; }
      if srcDir + path !in fs || fs[srcDir + path].isDir {
        code := 404;
      } else if !fs[srcDir + path].otherRead {
        code := 403;
      } else if code == -1 {
        code := 200;
      }
      ErrorHtml(fs);
    }

    method AddHeadLines(buff: Buffer)
      requires buff.Valid()
      modifies this`code, buff, buff.data
      ensures buff.Valid() && (buff.data == old(buff.data) || fresh(buff.data))
      ensures code == ShownCode(old(code))
      ensures buff.Content() == old(buff.Content()) + Joined(HeadLines(old(code), keepAlive, path))
    {
      ghost var before := buff.Content();
      AddStateLine(buff);
      AddHeader(buff);
      JoinedThree(StatusLine(old(code)), ConnectionLines(keepAlive), TypeLine(path));
      Regroup(before, StatusLine(old(code)) + CRLF, Joined(ConnectionLines(keepAlive)) + (TypeLine(path) + CRLF));
    }

    /** The three parts of the response, in order. */
    method AddParts(buff: Buffer, fs: FileSystem)
      requires buff.Valid() && mmFile == None
      requires srcDir + path in fs ==> fileSize == |fs[srcDir + path].bytes|
      modifies this`code, this`mmFile, buff, buff.data
      ensures buff.Valid() && (buff.data == old(buff.data) || fresh(buff.data))
      ensures mmFile == MappedFile(fs, srcDir + path)
      ensures var body := BodyOf(fs, srcDir + path, ShownCode(old(code)));
              var head := old(buff.Content()) + Joined(HeadLines(old(code), keepAlive, path));
              var announced := head + (LengthLine(body) + CRLF + CRLF);
              && (mmFile.Some? ==> body == mmFile.value && buff.Content() == announced)
              && (mmFile.None? ==> buff.Content() == announced + body)
    {
      hide BodyOf, HeadLines, Joined, LengthLine;
      AddHeadLines(buff);
      AddContent(buff, fs);
    }

    /** Appends the whole response except a mapped file, which is left for the second segment. */
    method MakeResponse(buff: Buffer, fs: FileSystem)
      requires buff.Valid() && mmFile == None && Mappable(fs)
      modifies this, buff, buff.data
      ensures buff.Valid() && (buff.data == old(buff.data) || fresh(buff.data))
      ensures mmFile == SentFile(fs, old(srcDir), old(path), old(code))
      ensures mmFile.Some? ==> fileSize == |mmFile.value| > 0
      ensures var head := Head(fs, old(srcDir), old(path), old(keepAlive), old(code));
              var body := Body(fs, old(srcDir), old(path), old(code));
              && (mmFile.Some? ==> body == mmFile.value && buff.Content() == old(buff.Content()) + head)
              && (mmFile.None? ==> buff.Content() == old(buff.Content()) + head + body)
    {
      hide HeadLines, Joined, LengthLine, Head, Body, BodyOf, ResolveCode, ResolvePath;
      ghost var before := buff.Content();
      ChooseFile(fs);
      SettledResponse(before, fs, srcDir, old(path), keepAlive, old(code), code, path);
      AddParts(buff, fs);
    }
  }
}
