/** `query::response::parse`: reading the answer to an SSDP search. */
module SsdpMessage {
  import opened Options
  import opened Scan
  import opened Urls

  datatype Result<+T, +E> = Ok(value: T) | Err(error: E)

  datatype Response = Response(serviceType: string, usn: string, uuid: string, location: Rep)

  /** The third error of the source, `location_url`, cannot arise: `url_t::parse` accepts every text. */
  datatype ErrorKind = HttpStatusLine | HttpResult

  /** The error carries the text after the first line. */
  datatype ParseError = ParseError(kind: ErrorKind, response: string)

  const NO_URL := Rep("", Unset, Unset, Unset, Unset, Unset, Unset, Unset)
  const NO_RESPONSE := Response("", "", "", NO_URL)

  // ----- The parser, as functions -----

  /** What is wrong with the first line, if anything. */
  function StatusError(line: string): Option<ErrorKind> {
    if !IStartsWith(line, "http") then Some(HttpStatusLine)
    else
      match Until(TrimPrefix(AfterToken(line, " ")), " ")
      case None => Some(HttpResult)
      case Some((code, _)) => if code == "200" then None else Some(HttpResult)
  }

  /** The uuid after the tokens of a USN: the text after the last "uuid:" up to "::", or all of it. */
  function ScanUuid(val: string, uuid: string): string
    decreases |val|
  {
    CutShrinks(val, [":"]);
    match Until(val, ":")
    case None => uuid
    case Some((token, rest)) =>
      if !IEquals(token, "uuid") then ScanUuid(rest, uuid)
      else
        CutShrinks(rest, ["::"]);
        match Until(rest, "::")
        case Some((u, rest')) => ScanUuid(rest', u)
        case None => ScanUuid(rest, rest)
  }

  function Header(acc: Response, key: string, val: string): Response {
    if IEquals(key, "USN") then acc.(usn := val, uuid := ScanUuid(val, acc.uuid))
    else if IEquals(key, "LOCATION") then acc.(location := Parse(val))
    else if IEquals(key, "ST") then acc.(serviceType := val)
    else acc
  }

  /** The header lines; a line without a ':' ends them. */
  function Headers(lines: string, acc: Response): Response
    decreases |lines|
  {
    CutShrinks(lines, EOL);
    match Cut(lines, EOL, true)
    case None => acc
    case Some((line, rest)) =>
      match Until(line, ":")
      case None => acc
      case Some((key, val)) => Headers(rest, Header(acc, key, Trim(val)))
  }

  /** A datagram without a line end is an empty response, not an error. */
  function ParseMessage(d: string): Result<Response, ParseError> {
    match Cut(d, EOL, true)
    case None => Ok(NO_RESPONSE)
    case Some((line, rest)) =>
      match StatusError(line)
      case Some(kind) => Err(ParseError(kind, rest))
      case None => Ok(Headers(rest, NO_RESPONSE))
  }

  // ----- The parser, as the loops it is -----

  method ParseStatus(text: string) returns (r: Option<ErrorKind>)
    ensures r == StatusError(text)
  {
    var line := text;
    if !IStartsWith(line, "http") {
      return Some(HttpStatusLine);
    }
    var ignored, result;
    ignored, line := ConsumeUntil(line, [" "], true);
    line := TrimSpacePrefix(line);
    result, line := ConsumeUntil(line, [" "], true);
    if result.None? || result.value != "200" {
      return Some(HttpResult);
    }
    return None;
  }

  method ReadUuid(text: string, before: string) returns (uuid: string)
    ensures uuid == ScanUuid(text, before)
  {
    var val := text;
    uuid := before;
    var optToken;
    CutShrinks(val, [":"]);
    optToken, val := ConsumeUntil(val, [":"], true);
    while optToken.Some?
      invariant ScanUuid(text, before) ==
        if optToken.None? then uuid
        else if !IEquals(optToken.value, "uuid") then ScanUuid(val, uuid)
        else match Until(val, "::") case Some((u, rest)) => ScanUuid(rest, u) case None => ScanUuid(val, val)
      decreases optToken.Some?, |val|
    {
      if IEquals(optToken.value, "uuid") {
        CutShrinks(val, ["::"]);
        var optUuid;
        optUuid, val := ConsumeUntil(val, ["::"], true);
        if optUuid.Some? {
          uuid := optUuid.value;
        } else {
          uuid := val;
        }
      }
      CutShrinks(val, [":"]);
      optToken, val := ConsumeUntil(val, [":"], true);
    }
  }

  method ReadHeader(acc: Response, key: string, val: string) returns (ret: Response)
    ensures ret == Header(acc, key, val)
  {
    ret := acc;
    if IEquals(key, "USN") {
      var uuid := ReadUuid(val, ret.uuid);
      ret := ret.(usn := val, uuid := uuid);
    }
    if IEquals(key, "LOCATION") {
      var location := new Url.Parse(val, 0);
      ret := ret.(location := location.Value());
    }
    if IEquals(key, "ST") {
      ret := ret.(serviceType := val);
    }
  }

  method ParseResponse(text: string) returns (r: Result<Response, ParseError>)
    ensures r == ParseMessage(text)
  {
    var lines := text;
    var lineN := 0;
    var ret := NO_RESPONSE;
    var optLine;
    CutShrinks(lines, EOL);
    optLine, lines := ConsumeUntil(lines, EOL, true);
    while optLine.Some?
      invariant lineN == 0 ==>
        ret == NO_RESPONSE &&
        optLine == (match Cut(text, EOL, true) case None => None case Some((line, _)) => Some(line)) &&
        (optLine.Some? ==> lines == Cut(text, EOL, true).value.1)
      invariant lineN > 0 ==>
        ParseMessage(text) == Ok(
          if optLine.None? then ret
          else match Until(optLine.value, ":")
            case None => ret
            case Some((key, val)) => Headers(lines, Header(ret, key, Trim(val))))
      decreases optLine.Some?, |lines|
    {
      var line := optLine.value;
      lineN := lineN + 1;
      if lineN == 1 {
        var error := ParseStatus(line);
        if error.Some? {
          return Err(ParseError(error.value, lines));
        }
      } else {
        var optKey;
        optKey, line := ConsumeUntil(line, [":"], true);
        if optKey.None? {
          break;
        }
        var val := line;
        val := TrimSpacePrefix(val);
        val := TrimSpaceSuffix(val);
        ret := ReadHeader(ret, optKey.value, val);
      }
      CutShrinks(lines, EOL);
      optLine, lines := ConsumeUntil(lines, EOL, true);
    }
    return Ok(ret);
  }

  // ----- Which datagrams parse -----

  /** The text before the first line end, if there is one. */
  function FirstLine(d: string): Option<string> {
    match Until(d, "\n") case None => None case Some((line, _)) => Some(DropCarriageReturn(line))
  }

  predicate StatusLine(line: string, word: string, space: string, rest: string) {
    ' ' !in word && line == word + [' '] + (space + ("200" + [' '] + rest))
  }

  /** A line that starts with "http" in any case and consists of a word, a blank, white space,
      the word "200" with a blank after it, and anything. */
  ghost predicate GoodStatus(line: string) {
    4 <= |line| && Alike(line[..4], "http") &&
    exists word: string, space: string, rest: string :: StatusLine(line, word, space, rest) && AllSpace(space)
  }

  lemma {:induction false} TrimAllSpace(space: string, text: string)
    requires AllSpace(space) && text != "" && !IsSpace(text[0])
    ensures TrimPrefix(space + text) == text
  {
    if space == "" {
      assert space + text == text;
    } else {
      assert (space + text)[1..] == space[1..] + text;
      TrimAllSpace(space[1..], text);
    }
  }

  lemma GoodStatusIsAccepted(line: string, word: string, space: string, rest: string)
    requires 4 <= |line| && Alike(line[..4], "http") && StatusLine(line, word, space, rest) && AllSpace(space)
    ensures StatusError(line).None?
  {
    IStartsWithExact(line, "http");
    var code := "200" + [' '] + rest;
    CutCharAt(word, ' ', space + code, true);
    TrimAllSpace(space, code);
    CutCharAt("200", ' ', rest, true);
  }

  lemma BlankInside(space: string, word: string, rest: string)
    ensures ' ' in space + (word + [' '] + rest)
  {
    assert (space + (word + [' '] + rest))[|space| + |word|] == ' ';
  }

  lemma AcceptedCode(after: string) returns (space: string, rest: string)
    requires var code := Until(TrimPrefix(after), " "); code.Some? && code.value.0 == "200"
    ensures AllSpace(space) && after == space + ("200" + [' '] + rest) && ' ' in after
  {
    var text := TrimPrefix(after);
    space := TrimPrefixSplits(after);
    rest := Until(text, " ").value.1;
    CutAtChar(text, ' ');
    BlankInside(space, "200", rest);
  }

  lemma AcceptedStatusIsGood(line: string)
    requires StatusError(line).None?
    ensures GoodStatus(line)
  {
    var after := AfterToken(line, " ");
    IStartsWithExact(line, "http");
    var space, rest := AcceptedCode(after);
    CutChar(line, ' ', true);
    CutAtChar(line, ' ');
    assert StatusLine(line, Until(line, " ").value.0, space, rest);
  }

  lemma StatusExact(line: string)
    ensures StatusError(line).None? <==> GoodStatus(line)
  {
    if GoodStatus(line) {
      var word: string, space: string, rest: string :| StatusLine(line, word, space, rest) && AllSpace(space);
      GoodStatusIsAccepted(line, word, space, rest);
    }
    if StatusError(line).None? { AcceptedStatusIsGood(line); }
  }

  /** A datagram fails to parse if and only if it has a line end and its first line is no good
      status line; the kind of error says whether the line starts with "http", and the error
      carries what follows the line. A datagram without a line end is an empty response. */
  lemma FailsExactly(d: string)
    ensures FirstLine(d).Some? <==> '\n' in d
    ensures ParseMessage(d).Err? <==> FirstLine(d).Some? && !GoodStatus(FirstLine(d).value)
    ensures ParseMessage(d).Err? ==>
      var e, line := ParseMessage(d).error, FirstLine(d).value;
      && (e.kind == HttpStatusLine <==> !(4 <= |line| && Alike(line[..4], "http")))
      && e.response == Until(d, "\n").value.1
    ensures FirstLine(d).None? ==>
      ParseMessage(d) == Ok(Response("", "", "", Rep("", Unset, Unset, Unset, Unset, Unset, Unset, Unset)))
  {
    CutLine(d);
    CutChar(d, '\n', true);
    if FirstLine(d).Some? {
      StatusExact(FirstLine(d).value);
      IStartsWithExact(FirstLine(d).value, "http");
    }
  }

  /** Such as the first line of an ordinary answer. */
  lemma OrdinaryStatus()
    ensures GoodStatus("HTTP/1.1 200 OK")
  {
    var line := "HTTP/1.1 200 OK";
    assert line[..4] == "HTTP";
    assert Alike("HTTP", "http");
    assert line == "HTTP/1.1" + [' '] + ("" + ("200" + [' '] + "OK"));
    assert StatusLine(line, "HTTP/1.1", "", "OK");
  }

  // ----- Text after the last line end is ignored -----

  lemma UntilLineAppend(s: string, x: string)
    requires '\n' !in x
    ensures Until(s + x, "\n") ==
      match Until(s, "\n") case None => None case Some((line, rest)) => Some((line, rest + x))
  {
    CutChar(s, '\n', true);
    if Until(s, "\n").Some? {
      var (b, a) := Until(s, "\n").value;
      assert s + x == b + ['\n'] + (a + x);
      CutCharAt(b, '\n', a + x, true);
    } else {
      CutChar(s + x, '\n', true);
    }
  }

  lemma CutLineAppend(s: string, x: string)
    requires '\n' !in x
    ensures Cut(s + x, EOL, true) ==
      match Cut(s, EOL, true) case None => None case Some((line, rest)) => Some((line, rest + x))
  {
    CutLine(s);
    CutLine(s + x);
    UntilLineAppend(s, x);
  }

  lemma {:induction false} HeadersAppend(lines: string, x: string, acc: Response)
    requires '\n' !in x
    ensures Headers(lines + x, acc) == Headers(lines, acc)
    decreases |lines|
  {
    CutLineAppend(lines, x);
    CutShrinks(lines, EOL);
    if Cut(lines, EOL, true).Some? {
      var (line, rest) := Cut(lines, EOL, true).value;
      if Until(line, ":").Some? {
        var (key, val) := Until(line, ":").value;
        HeadersAppend(rest, x, Header(acc, key, Trim(val)));
      }
    }
  }

  /** Appending text without a line feed to a datagram changes neither the response nor the
      kind of error, only the text an error carries. */
  lemma UnterminatedTextIsIgnored(d: string, x: string)
    requires '\n' !in x
    ensures ParseMessage(d + x) ==
      match ParseMessage(d)
      case Ok(r) => Ok(r)
      case Err(e) => Err(e.(response := e.response + x))
  {
    CutLineAppend(d, x);
    if Cut(d, EOL, true).Some? {
      HeadersAppend(Cut(d, EOL, true).value.1, x, NO_RESPONSE);
    }
  }

  // ----- Rendering and reading back -----

  /** A key and the text behind its ':', with whatever white space. */
  type HeaderLine = (string, string)

  function RenderLine(h: HeaderLine): string {
    h.0 + ":" + h.1 + "\r\n"
  }

  function Render(hs: seq<HeaderLine>): string {
    if hs == [] then "" else RenderLine(hs[0]) + Render(hs[1..])
  }

  predicate Renderable(h: HeaderLine) {
    ':' !in h.0 && '\n' !in h.0 && '\n' !in h.1
  }

  /** No header line comes next: the text has no line end, or no ':' in its first line. */
  predicate NoHeader(text: string) {
    FirstLine(text).None? || ':' !in FirstLine(text).value
  }

  function Apply(acc: Response, hs: seq<HeaderLine>): Response
    decreases |hs|
  {
    if hs == [] then acc else Apply(Header(acc, hs[0].0, Trim(hs[0].1)), hs[1..])
  }

  lemma CutTerminatedLine(line: string, rest: string)
    requires '\n' !in line
    ensures Cut(line + "\r\n" + rest, EOL, true) == Some((line, rest))
  {
    var s := line + "\r\n" + rest;
    assert s == (line + "\r") + ['\n'] + rest;
    CutCharAt(line + "\r", '\n', rest, true);
    CutLine(s);
    assert DropCarriageReturn(line + "\r") == line;
  }

  lemma CutRenderedLine(h: HeaderLine, rest: string)
    requires Renderable(h)
    ensures Cut(RenderLine(h) + rest, EOL, true) == Some((h.0 + ":" + h.1, rest))
    ensures Until(h.0 + ":" + h.1, ":") == Some((h.0, h.1))
  {
    var line := h.0 + ":" + h.1;
    assert RenderLine(h) == line + "\r\n";
    CutTerminatedLine(line, rest);
    CutCharAt(h.0, ':', h.1, true);
  }

  lemma HeadersStop(text: string, acc: Response)
    requires NoHeader(text)
    ensures Headers(text, acc) == acc
  {
    CutLine(text);
    if FirstLine(text).Some? { CutChar(FirstLine(text).value, ':', true); }
  }

  lemma RenderFirst(hs: seq<HeaderLine>, tail: string)
    requires hs != []
    ensures Render(hs) + tail == RenderLine(hs[0]) + (Render(hs[1..]) + tail)
  {
  }

  lemma {:induction false} HeadersOfRender(hs: seq<HeaderLine>, tail: string, acc: Response)
    requires (forall h :: h in hs ==> Renderable(h)) && NoHeader(tail)
    ensures Headers(Render(hs) + tail, acc) == Apply(acc, hs)
    decreases |hs|
  {
    if hs == [] {
      assert "" + tail == tail;
      HeadersStop(tail, acc);
    } else {
      var h, rest := hs[0], Render(hs[1..]) + tail;
      RenderFirst(hs, tail);
      CutRenderedLine(h, rest);
      HeadersOfRender(hs[1..], tail, Header(acc, h.0, Trim(h.1)));
    }
  }

  ghost predicate DistinctKeys(hs: seq<HeaderLine>) {
    forall i, j :: 0 <= i < j < |hs| ==> !Alike(hs[i].0, hs[j].0)
  }

  /** The trimmed value of the last header with a key, in any case. */
  function Lookup(hs: seq<HeaderLine>, name: string): Option<string> {
    if hs == [] then None
    else if Lookup(hs[1..], name).Some? then Lookup(hs[1..], name)
    else if Alike(hs[0].0, name) then Some(Trim(hs[0].1))
    else None
  }

  /** The uuid after all USN headers: each keeps the one before unless it holds a token of its own. */
  function UuidOf(hs: seq<HeaderLine>, before: string): string
    decreases |hs|
  {
    if hs == [] then before
    else UuidOf(hs[1..], if Alike(hs[0].0, "USN") then ScanUuid(Trim(hs[0].1), before) else before)
  }

  /** The response the headers spell, read by name and not by position. */
  function Spelled(hs: seq<HeaderLine>, acc: Response): Response {
    var location := Lookup(hs, "LOCATION");
    Response(OrElse(Lookup(hs, "ST"), acc.serviceType),
             OrElse(Lookup(hs, "USN"), acc.usn),
             UuidOf(hs, acc.uuid),
             if location.Some? then Parse(location.value) else acc.location)
  }

  lemma {:induction false} LookupAbsent(hs: seq<HeaderLine>, name: string)
    requires forall h :: h in hs ==> !Alike(h.0, name)
    ensures Lookup(hs, name) == None
  {
    if hs == [] {
    } else {
      LookupAbsent(hs[1..], name);
    }
  }

  lemma FirstKeyOnlyOnce(hs: seq<HeaderLine>, name: string)
    requires hs != [] && DistinctKeys(hs) && Alike(hs[0].0, name)
    ensures Lookup(hs[1..], name) == None
  {
    forall h | h in hs[1..] ensures !Alike(h.0, name) {
      var j :| 0 <= j < |hs[1..]| && hs[1..][j] == h;
      assert hs[j + 1] == h;
      if Alike(h.0, name) { AlikeTransitive(hs[0].0, h.0, name); }
    }
    LookupAbsent(hs[1..], name);
  }

  lemma KeysDiffer(key: string)
    ensures !(Alike(key, "USN") && Alike(key, "LOCATION")) && !(Alike(key, "USN") && Alike(key, "ST"))
    ensures !(Alike(key, "LOCATION") && Alike(key, "ST"))
  {
    assert |"USN"| == 3 && |"LOCATION"| == 8 && |"ST"| == 2;
  }

  lemma HeaderIsSpelled(h: HeaderLine, rest: seq<HeaderLine>, acc: Response)
    ensures Spelled(rest, Header(acc, h.0, Trim(h.1))) == Spelled([h] + rest, acc)
  {
    assert ([h] + rest)[1..] == rest;
    IEqualsExact(h.0, "USN");
    IEqualsExact(h.0, "LOCATION");
    IEqualsExact(h.0, "ST");
    KeysDiffer(h.0);
  }

  lemma {:induction false} ApplyIsSpelled(hs: seq<HeaderLine>, acc: Response)
    ensures Apply(acc, hs) == Spelled(hs, acc)
    decreases |hs|
  {
    if hs == [] {
    } else {
      ApplyIsSpelled(hs[1..], Header(acc, hs[0].0, Trim(hs[0].1)));
      HeaderIsSpelled(hs[0], hs[1..], acc);
      assert [hs[0]] + hs[1..] == hs;
    }
  }

  lemma {:induction false} UuidWithoutUsn(hs: seq<HeaderLine>, before: string)
    requires Lookup(hs, "USN") == None
    ensures UuidOf(hs, before) == before
    decreases |hs|
  {
    if hs == [] {
    } else {
      UuidWithoutUsn(hs[1..], before);
    }
  }

  lemma {:induction false} UuidOfDistinct(hs: seq<HeaderLine>, before: string)
    requires DistinctKeys(hs)
    ensures UuidOf(hs, before) ==
      match Lookup(hs, "USN") case None => before case Some(usn) => ScanUuid(usn, before)
    decreases |hs|
  {
    if hs == [] {
    } else if Alike(hs[0].0, "USN") {
      FirstKeyOnlyOnce(hs, "USN");
      UuidWithoutUsn(hs[1..], ScanUuid(Trim(hs[0].1), before));
    } else {
      UuidOfDistinct(hs[1..], before);
    }
  }

  /** A good status line followed by headers, whatever the case of their keys and the white space
      around the values, reads back as what the headers spell: the last one with a key counts. A
      line without ':' ends them and what follows it is ignored. */
  lemma ParseOfRender(status: string, hs: seq<HeaderLine>, tail: string)
    requires GoodStatus(status) && '\n' !in status && NoHeader(tail)
    requires forall h :: h in hs ==> Renderable(h)
    ensures ParseMessage(status + "\r\n" + (Render(hs) + tail)) == Ok(Spelled(hs, NO_RESPONSE))
  {
    CutTerminatedLine(status, Render(hs) + tail);
    StatusExact(status);
    HeadersOfRender(hs, tail, NO_RESPONSE);
    ApplyIsSpelled(hs, NO_RESPONSE);
  }

  lemma KeysOfAnswer()
    ensures Alike("Location", "LOCATION") && Alike("usn", "USN")
    ensures !Alike("Location", "usn") && !Alike("Location", "USN") && !Alike("usn", "LOCATION")
    ensures !Alike("Location", "ST") && !Alike("usn", "ST")
  {
  }

  lemma LookupTwo(a: HeaderLine, b: HeaderLine, name: string)
    ensures Lookup([a, b], name) ==
      if Alike(b.0, name) then Some(Trim(b.1)) else if Alike(a.0, name) then Some(Trim(a.1)) else None
  {
    assert [a, b][1..] == [b] && [b][1..] == [];
    assert Lookup([], name) == None;
    assert Lookup([b], name) == if Alike(b.0, name) then Some(Trim(b.1)) else None;
  }

  lemma SpelledTwo(location: string, usn: string)
    ensures Spelled([("Location", location), ("usn", usn)], NO_RESPONSE) ==
      Response("", Trim(usn), ScanUuid(Trim(usn), ""), Parse(Trim(location)))
  {
    var a, b := ("Location", location), ("usn", usn);
    KeysOfAnswer();
    LookupTwo(a, b, "USN");
    LookupTwo(a, b, "LOCATION");
    LookupTwo(a, b, "ST");
    TwoHeadersDistinct(a, b);
    UuidOfDistinct([a, b], "");
  }

  lemma TwoHeadersDistinct(a: HeaderLine, b: HeaderLine)
    requires !Alike(a.0, b.0)
    ensures DistinctKeys([a, b])
  {
  }

  lemma TwoHeaders(location: string, usn: string)
    requires '\n' !in location && '\n' !in usn
    ensures var hs := [("Location", location), ("usn", usn)];
      forall h :: h in hs ==> Renderable(h)
  {
    var hs := [("Location", location), ("usn", usn)];
    KeysOfAnswer();
    forall h | h in hs ensures Renderable(h) {
      assert h == hs[0] || h == hs[1];
    }
  }

  /** An ordinary answer, with the names of its headers in small letters. */
  lemma OrdinaryAnswer(location: string, usn: string)
    requires '\n' !in location && '\n' !in usn
    ensures var hs := [("Location", location), ("usn", usn)];
      ParseMessage("HTTP/1.1 200 OK" + "\r\n" + (Render(hs) + "\r\n")) ==
        Ok(Response("", Trim(usn), ScanUuid(Trim(usn), ""), Parse(Trim(location))))
  {
    OrdinaryStatus();
    BlankLineEnds();
    TwoHeaders(location, usn);
    SpelledTwo(location, usn);
    ParseOfRender("HTTP/1.1 200 OK", [("Location", location), ("usn", usn)], "\r\n");
  }

  lemma BlankLineEnds()
    ensures NoHeader("\r\n")
  {
    CutCharAt("\r", '\n', "", true);
    assert "\r" + ['\n'] + "" == "\r\n";
  }

  lemma {:induction false} LookupIsMembership(hs: seq<HeaderLine>, name: string, v: string)
    requires DistinctKeys(hs)
    ensures Lookup(hs, name) == Some(v) <==> exists h :: h in hs && Alike(h.0, name) && Trim(h.1) == v
  {
    if hs == [] {
    } else {
      LookupIsMembership(hs[1..], name, v);
      assert hs == [hs[0]] + hs[1..];
      if Alike(hs[0].0, name) {
        FirstKeyOnlyOnce(hs, name);
      }
    }
  }

  lemma LookupPermuted(hs: seq<HeaderLine>, hs': seq<HeaderLine>, name: string)
    requires DistinctKeys(hs) && DistinctKeys(hs') && multiset(hs) == multiset(hs')
    ensures Lookup(hs, name) == Lookup(hs', name)
  {
    forall h: HeaderLine ensures h in hs <==> h in hs' {
      assert h in hs <==> h in multiset(hs);
      assert h in hs' <==> h in multiset(hs');
    }
    if Lookup(hs, name).Some? {
      LookupIsMembership(hs, name, Lookup(hs, name).value);
      LookupIsMembership(hs', name, Lookup(hs, name).value);
    }
    if Lookup(hs', name).Some? {
      LookupIsMembership(hs, name, Lookup(hs', name).value);
      LookupIsMembership(hs', name, Lookup(hs', name).value);
    }
  }

  lemma {:induction false} DistinctCountedOnce(hs: seq<HeaderLine>, h: HeaderLine)
    requires DistinctKeys(hs)
    ensures multiset(hs)[h] <= 1
  {
    if hs == [] {
    } else {
      DistinctCountedOnce(hs[1..], h);
      assert hs == [hs[0]] + hs[1..];
      if h in hs[1..] {
        var j :| 0 <= j < |hs[1..]| && hs[1..][j] == h;
        assert !Alike(hs[0].0, hs[j + 1].0);
      }
    }
  }

  lemma ListedTwice(hs: seq<HeaderLine>, i: nat, j: nat)
    requires i < j < |hs| && hs[i] == hs[j]
    ensures multiset(hs)[hs[i]] >= 2
  {
    assert hs == hs[..j] + [hs[j]] + hs[j + 1..];
    assert hs[..j][i] == hs[i];
  }

  /** Headers with distinct keys keep them in any order. */
  lemma DistinctPermuted(hs: seq<HeaderLine>, hs': seq<HeaderLine>)
    requires DistinctKeys(hs) && multiset(hs) == multiset(hs')
    ensures DistinctKeys(hs')
  {
    forall i, j | 0 <= i < j < |hs'| ensures !Alike(hs'[i].0, hs'[j].0) {
      var x, y := hs'[i], hs'[j];
      DistinctCountedOnce(hs, x);
      if x == y { ListedTwice(hs', i, j); }
      assert x in multiset(hs') && y in multiset(hs');
      assert x in multiset(hs) && y in multiset(hs);
      var k :| 0 <= k < |hs| && hs[k] == x;
      var l :| 0 <= l < |hs| && hs[l] == y;
      assert k != l;
      assert !Alike(hs[if k < l then k else l].0, hs[if k < l then l else k].0);
    }
  }

  /** The order of the headers does not matter. */
  lemma HeaderOrderIsIrrelevant(status: string, hs: seq<HeaderLine>, hs': seq<HeaderLine>, tail: string)
    requires GoodStatus(status) && '\n' !in status && NoHeader(tail)
    requires DistinctKeys(hs) && multiset(hs) == multiset(hs')
    requires forall h :: h in hs ==> Renderable(h)
    ensures ParseMessage(status + "\r\n" + (Render(hs) + tail)) == ParseMessage(status + "\r\n" + (Render(hs') + tail))
  {
    forall h | h in hs' ensures Renderable(h) {
      assert h in multiset(hs');
      assert h in multiset(hs);
    }
    DistinctPermuted(hs, hs');
    ParseOfRender(status, hs, tail);
    ParseOfRender(status, hs', tail);
    LookupPermuted(hs, hs', "USN");
    LookupPermuted(hs, hs', "LOCATION");
    LookupPermuted(hs, hs', "ST");
    UuidOfDistinct(hs, "");
    UuidOfDistinct(hs', "");
  }

  // ----- The uuid in a USN -----

  /** No token that a ':' ends is "uuid" in any case. */
  predicate NoUuidToken(v: string)
    decreases |v|
  {
    CutShrinks(v, [":"]);
    match Until(v, ":")
    case None => true
    case Some((token, rest)) => !Alike(token, "uuid") && NoUuidToken(rest)
  }

  lemma {:induction false} ScanUuidKeeps(v: string, u: string)
    requires NoUuidToken(v)
    ensures ScanUuid(v, u) == u
    decreases |v|
  {
    CutShrinks(v, [":"]);
    if Until(v, ":").Some? {
      IEqualsExact(Until(v, ":").value.0, "uuid");
      ScanUuidKeeps(Until(v, ":").value.1, u);
    }
  }

  lemma {:induction false} ScanUuidForgets(v: string, a: string, b: string)
    requires !NoUuidToken(v)
    ensures ScanUuid(v, a) == ScanUuid(v, b)
    decreases |v|
  {
    CutShrinks(v, [":"]);
    var (token, rest) := Until(v, ":").value;
    IEqualsExact(token, "uuid");
    if !Alike(token, "uuid") { ScanUuidForgets(rest, a, b); }
  }

  lemma UuidTokenHasNoColon(token: string)
    requires Alike(token, "uuid")
    ensures ':' !in token
  {
  }

  lemma UuidUpToEnd(token: string, u: string, v: string, before: string)
    requires Alike(token, "uuid") && ':' !in u
    ensures ScanUuid(token + ":" + u + "::" + v, before) == ScanUuid(v, u)
  {
    var rest := u + "::" + v;
    assert token + ":" + u + "::" + v == token + [':'] + rest;
    UuidTokenHasNoColon(token);
    IEqualsExact(token, "uuid");
    CutCharAt(token, ':', rest, true);
    UntilAt(u, "::", v);
  }

  /** The uuid of "uuid:u::v", the token in any case, is read as u, whatever u is, if and only if v
      holds no further such token. */
  lemma UuidOfUsn(v: string)
    ensures (forall token: string, u: string, before: string ::
               Alike(token, "uuid") && ':' !in u ==> ScanUuid(token + ":" + u + "::" + v, before) == u)
      <==> NoUuidToken(v)
  {
    forall token: string, u: string, before: string | Alike(token, "uuid") && ':' !in u
      ensures ScanUuid(token + ":" + u + "::" + v, before) == ScanUuid(v, u)
    {
      UuidUpToEnd(token, u, v, before);
    }
    if NoUuidToken(v) {
      forall u: string | ':' !in u ensures ScanUuid(v, u) == u { ScanUuidKeeps(v, u); }
    } else {
      ScanUuidForgets(v, "a", "b");
      assert ScanUuid("uuid" + ":" + "a" + "::" + v, "") == ScanUuid("uuid" + ":" + "b" + "::" + v, "");
    }
  }

  /** Without a "::" the rest of the USN is the uuid, unless a further token follows in it. */
  lemma UuidWithoutEnd(token: string, u: string, before: string)
    requires Alike(token, "uuid") && !Occurs("::", u) && NoUuidToken(u)
    ensures ScanUuid(token + ":" + u, before) == u
  {
    assert token + ":" + u == token + [':'] + u;
    UuidTokenHasNoColon(token);
    IEqualsExact(token, "uuid");
    CutCharAt(token, ':', u, true);
    UntilNone(u, "::");
    ScanUuidKeeps(u, u);
  }
}
