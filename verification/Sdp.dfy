/** The session description a caller offers and the one the server answers with (src/spu.cpp, parseSDP and
    handleINVITE). */
module Sdp {
  import opened Pcm
  import opened Sip
  import opened Text

  datatype SDPInfo = SDPInfo(ip: string, port: int, payloadType: int, sampleRate: int, isOpus: bool)

  const NO_INFO := SDPInfo("", 0, -1, 0, false)

  /* ---- the three searches of parseSDP ---- */

  /** "c=" at the start of a line. */
  predicate AtLineStart(sdp: string, k: nat)
    requires k < |sdp|
  {
    k == 0 || (sdp[k - 1] == '\n' && (k == 1 || sdp[k - 2] == '\r'))
  }

  function RestOfLine(sdp: string, k: nat): (r: string)
    requires k <= |sdp|
    ensures r <= sdp[k..] && forall j :: 0 <= j && j + 1 < |r| ==> !(r[j] == '\r' && r[j + 1] == '\n')
    ensures r == sdp[k..] || "\r\n" <= sdp[k + |r|..]
  {
    assert forall j :: k <= j && j + 1 < |sdp| && sdp[j] == '\r' && sdp[j + 1] == '\n' ==> MatchAt(sdp, CRLF, j);
    match Find(sdp, CRLF, k)
    case Some(end) => sdp[k..end]
    case None => sdp[k..]
  }

  /** The address on the line at k, if that is a connection line with one. */
  function AddressAt(sdp: string, k: nat): Option<string>
    requires k < |sdp|
  {
    var parts := Words(RestOfLine(sdp, k));
    if AtLineStart(sdp, k) && |parts| >= 3 then Some(UpTo(parts[2], '/')) else None
  }

  /** The next "c=". */
  function Mark(sdp: string, from: nat): (r: Option<nat>)
    ensures r.Some? ==> from <= r.value < |sdp|
  {
    Find(sdp, "c=", from)
  }

  /** The first address on a line marked at `pos` or later; `ip` if there is none. */
  function Address(sdp: string, pos: Option<nat>, ip: string): string
    requires pos.Some? ==> pos.value < |sdp|
    decreases if pos.Some? then |sdp| - pos.value else 0
  {
    match pos
    case None => ip
    case Some(k) =>
      match AddressAt(sdp, k)
      case Some(address) => address
      case None => Address(sdp, Mark(sdp, k + 1), ip)
  }

  /** The audio port; None where substr throws because the description ends right after "m=audio". */
  function AudioPort(sdp: string, port: int): Option<int> {
    match Find(sdp, "m=audio", 0)
    case None => Some(port)
    case Some(k) =>
      if k + 8 > |sdp| then None else
        match Find(sdp, " ", k + 8)
        case Some(end) => Some(Atoi(sdp[k + 8..end]))
        case None => Some(Atoi(sdp[k + 8..]))
  }

  /** One line's contribution to the codec; None where std::stoi throws. */
  function CodecLine(line: string, info: SDPInfo): Option<SDPInfo> {
    if Find(line, "a=rtpmap:", 0).None? || Find(line, "opus/", 0).None? then Some(info) else
      match IndexOf(line, ':')
      case None => Some(info.(isOpus := true))
      case Some(colon) =>
        match IndexOf(line, '/')
        case None => Some(info.(isOpus := true))
        case Some(slash) =>
          match Stoi(if slash <= colon then line[colon + 1..] else line[colon + 1..slash])
          case None => None
          case Some(pt) =>
            match Find(line, "/", slash + 1)
            case None => Some(info.(isOpus := true, payloadType := pt))
            case Some(rate) =>
              match Stoi(line[slash + 1..rate])
              case None => None
              case Some(hz) => Some(info.(isOpus := true, payloadType := pt, sampleRate := hz))
  }

  function Codec(text: string, info: SDPInfo): Option<SDPInfo>
    decreases |text|
  {
    if text == "" then Some(info) else
      var line := FirstLine(text);
      match CodecLine(line.0, info)
      case None => None
      case Some(next) => Codec(line.1, next)
  }

  /** What follows the blank line; without one, npos + 4 wraps around to 3. */
  function Description(message: string): Option<string> {
    match Find(message, BLANK_LINE, 0)
    case Some(k) => Some(message[k + 4..])
    case None => if |message| < 3 then None else Some(message[3..])
  }

  /** parseSDP on a fresh info; None if an exception leaves it. */
  function Parsed(message: string): Option<SDPInfo> {
    match Description(message)
    case None => None
    case Some(sdp) =>
      match AudioPort(sdp, NO_INFO.port)
      case None => None
      case Some(port) => Codec(sdp, NO_INFO.(ip := Address(sdp, Mark(sdp, 0), NO_INFO.ip), port := port))
  }

  /* ---- the parser as the program runs it ---- */

  method FindAddress(sdp: string, ip: string) returns (r: string)
    ensures r == Address(sdp, Mark(sdp, 0), ip)
  {
    var pos := Mark(sdp, 0);
    while pos.Some?
      invariant pos.Some? ==> pos.value < |sdp|
      invariant Address(sdp, Mark(sdp, 0), ip) == Address(sdp, pos, ip)
      decreases if pos.Some? then |sdp| - pos.value else 0
    {
      var address := ReadConnection(sdp, pos.value);
      if address.Some? {
        return address.value;
      }
      pos := Mark(sdp, pos.value + 1);
    }
    r := ip;
  }

  method ReadConnection(sdp: string, k: nat) returns (address: Option<string>)
    requires k < |sdp|
    ensures address == AddressAt(sdp, k)
  {
    address := None;
    if AtLineStart(sdp, k) {
      var parts := Words(RestOfLine(sdp, k));
      if |parts| >= 3 {
        address := Some(UpTo(parts[2], '/'));
      }
    }
  }

  method ScanCodec(sdp: string, info: SDPInfo) returns (r: Option<SDPInfo>)
    ensures r == Codec(sdp, info)
  {
    var rest, current := sdp, info;
    while rest != ""
      invariant Codec(sdp, info) == Codec(rest, current)
      decreases |rest|
    {
      var line := FirstLine(rest);
      var next := CodecLine(line.0, current);
      if next.None? {
        return None;
      }
      rest, current := line.1, next.value;
    }
    r := Some(current);
  }

  method ParseSdp(message: string) returns (r: Option<SDPInfo>)
    ensures r == Parsed(message)
  {
    var sdp := Description(message);
    if sdp.None? {
      return None;
    }
    var ip := FindAddress(sdp.value, NO_INFO.ip);
    var port := AudioPort(sdp.value, NO_INFO.port);
    if port.None? {
      return None;
    }
    r := ScanCodec(sdp.value, NO_INFO.(ip := ip, port := port.value));
  }

  /* ---- the answer ---- */

  function AnswerOrigin(ip: string): seq<string> {
    ["v=0", "o=- 3953192465 3953192466 IN IP4 " + ip, "s=pjmedia"]
  }

  function AnswerSession(): seq<string> {
    ["b=AS:84", "t=0 0", "a=X-nat:0"]
  }

  function AnswerCodecs(): seq<string> {
    ["a=rtpmap:8 PCMA/8000", "a=fmtp:8 0-16", "a=rtpmap:121 telephone-event/8000", "a=fmtp:121 0-16",
      "a=rtcp-fb:* ccm tmmbr"]
  }

  function AnswerAudio(ip: string): seq<string> {
    ["a=rtcp:4001 IN IP4 " + ip, "a=ssrc:766044304 cname:7b8072591a0e9c5a"] + AnswerCodecs()
  }

  function AnswerVideo(ip: string): seq<string> {
    ["m=video 0 RTP/AVP 96", ConnectionLineFor(ip), "a=rtpmap:96 H264/90000"] +
    ["a=fmtp:96 profile-level-id=42801F", "a=rtcp-fb:96 nack pli"]
  }

  function ConnectionLineFor(ip: string): string {
    "c=IN IP4 " + ip
  }

  /** The lines up to the audio port, and after it. */
  function AnswerHead(ip: string): seq<string> {
    AnswerOrigin(ip) + [ConnectionLineFor(ip)] + AnswerSession()
  }

  function AnswerTail(ip: string): seq<string> {
    AnswerAudio(ip) + AnswerVideo(ip)
  }

  function AudioLine(port: nat): string {
    "m=audio " + NatText(port) + " RTP/AVP 8"
  }

  function Answer(ip: string, port: nat): string {
    Lines(AnswerHead(ip) + [AudioLine(port)] + AnswerTail(ip))
  }

  /** A numeric IPv4 address, as far as the parser cares. */
  ghost predicate Numeric(ip: string) {
    ip != "" && forall k :: 0 <= k < |ip| ==> IsDigit(ip[k]) || ip[k] == '.'
  }

  /* ---- what is taken from a description ---- */

  /** An address stands at k: "c=" at the start of a line with at least three words on it. */
  ghost predicate IsConnection(sdp: string, k: nat) {
    && k + 2 <= |sdp| && sdp[k] == 'c' && sdp[k + 1] == '='
    && (k == 0 || (sdp[k - 1] == '\n' && (k == 1 || sdp[k - 2] == '\r')))
    && |Words(RestOfLine(sdp, k))| >= 3
  }

  /** The address comes from the first place where one stands; wherever else "c=" occurs it is ignored. */
  lemma AddressIsFirst(sdp: string, ip: string) returns (at: Option<nat>)
    ensures var r := Address(sdp, Mark(sdp, 0), ip);
            match at
            case None => r == ip && forall j :: !IsConnection(sdp, j)
            case Some(k) =>
              && IsConnection(sdp, k) && (forall j :: 0 <= j < k ==> !IsConnection(sdp, j))
              && var word := Words(RestOfLine(sdp, k))[2];
                 r <= word && '/' !in r && (r != word ==> word[|r|] == '/')
  {
    at := FirstConnection(sdp, 0, ip);
  }

  lemma ConnectionMatches(sdp: string, k: nat)
    ensures IsConnection(sdp, k) <==> k + 2 <= |sdp| && MatchAt(sdp, "c=", k) && AddressAt(sdp, k).Some?
  {
    if k + 2 <= |sdp| {
      assert sdp[k..k + 2] == [sdp[k], sdp[k + 1]];
    }
  }

  /** Up to the next "c=" there is none. */
  lemma NoneBefore(sdp: string, from: nat, j: nat)
    requires from <= j && (Mark(sdp, from).None? || j < Mark(sdp, from).value)
    ensures !IsConnection(sdp, j)
  {
    ConnectionMatches(sdp, j);
  }

  lemma NextConnection(sdp: string, k: nat)
    requires k < |sdp| && MatchAt(sdp, "c=", k)
    ensures AddressAt(sdp, k).Some? <==> IsConnection(sdp, k)
    ensures IsConnection(sdp, k) ==> AddressAt(sdp, k) == Some(UpTo(Words(RestOfLine(sdp, k))[2], '/'))
  {
    ConnectionMatches(sdp, k);
  }

  /** The first place of an address at `from` or later gives it. */
  ghost predicate FirstGives(sdp: string, from: nat, ip: string, at: Option<nat>, r: string) {
    match at
    case None => r == ip && forall j :: from <= j ==> !IsConnection(sdp, j)
    case Some(k) =>
      && from <= k && IsConnection(sdp, k) && (forall j :: from <= j < k ==> !IsConnection(sdp, j))
      && r == UpTo(Words(RestOfLine(sdp, k))[2], '/')
  }

  lemma {:induction false} FirstConnection(sdp: string, from: nat, ip: string) returns (at: Option<nat>)
    ensures FirstGives(sdp, from, ip, at, Address(sdp, Mark(sdp, from), ip))
    decreases if Mark(sdp, from).Some? then |sdp| - Mark(sdp, from).value else 0
  {
    var pos := Mark(sdp, from);
    hide IsConnection, AddressAt, RestOfLine, UpTo, Words, AtLineStart;
    forall j: nat | from <= j && (pos.None? || j < pos.value) ensures !IsConnection(sdp, j) {
      NoneBefore(sdp, from, j);
    }
    if pos.None? {
      at := None;
    } else {
      NextConnection(sdp, pos.value);
      if AddressAt(sdp, pos.value).Some? {
        at := pos;
      } else {
        at := FirstConnection(sdp, pos.value + 1, ip);
      }
    }
  }

  /** A message without a blank line is read as if its first three characters were one; a shorter one cannot
      be read. */
  lemma NoBlankLine(message: string)
    requires forall k: nat :: !MatchAt(message, "\r\n\r\n", k)
    ensures Parsed(message) == if |message| < 3 then None else Parsed("\r\n\r\n" + message[3..])
    ensures ExtractMessageBody(message) == ""
  {
    assert BLANK_LINE == "\r\n\r\n";
    assert Find(message, BLANK_LINE, 0).None?;
    if |message| >= 3 {
      var m := "\r\n\r\n" + message[3..];
      assert m[0..4] == BLANK_LINE;
      FindIs(m, BLANK_LINE, 0, 0);
      assert m[4..] == message[3..];
    }
  }

  /* ---- reading back ---- */

  ghost predicate NoSpaces(s: string) {
    forall k :: 0 <= k < |s| ==> s[k] != ' ' && !('\t' <= s[k] <= '\r')
  }

  lemma {:induction false} LinesEnd(ls: seq<string>)
    ensures ls == [] || (|Lines(ls)| >= 2 && Lines(ls)[|Lines(ls)| - 2..] == CRLF)
  {
    if |ls| > 1 {
      LinesEnd(ls[1..]);
      var head, tail := ls[0] + CRLF, Lines(ls[1..]);
      assert (head + tail)[|head + tail| - 2..] == tail[|tail| - 2..];
    } else if |ls| == 1 {
      assert Lines(ls[1..]) == "" && Lines(ls) == ls[0] + CRLF;
    }
  }

  /** The line at k ends where its carriage return is. */
  lemma RestOfLineIs(before: string, line: string, rest: string)
    requires '\r' !in line
    ensures RestOfLine(before + line + CRLF + rest, |before|) == line
  {
    var s := before + line + CRLF + rest;
    var end := |before| + |line|;
    assert s[end..end + 2] == CRLF;
    assert CRLF[0] == '\r';
    forall j | |before| <= j < end ensures !MatchAt(s, CRLF, j) {
      assert s[j] == line[j - |before|];
      MatchChar(s, CRLF, j, 0);
    }
    FindIs(s, CRLF, |before|, end);
    assert s[|before|..end] == line;
  }

  lemma ConnectionWords(ip: string)
    requires ip != "" && NoSpaces(ip)
    ensures Words(ConnectionLineFor(ip)) == ["c=IN", "IP4", ip]
  {
    LiteralWords();
    assert ConnectionLineFor(ip) == "c=IN" + " " + ("IP4" + " " + ip);
    ThreeWords("c=IN", "IP4", ip);
  }

  lemma ThreeWords(u: string, v: string, w: string)
    requires u != "" && v != "" && w != "" && NoSpaces(u) && NoSpaces(v) && NoSpaces(w)
    ensures Words(u + " " + (v + " " + w)) == [u, v, w]
  {
    WordsStep(u, v + " " + w);
    WordsStep(v, w);
    WordsStep(w, "");
    assert [u] + ([v] + [w]) == [u, v, w];
  }

  lemma LiteralWords()
    ensures NoSpaces("c=IN") && NoSpaces("IP4")
  {
  }

  lemma UpToAbsent(s: string, c: char)
    requires c !in s
    ensures UpTo(s, c) == s
  {
    var k := IndexOf(s, c);
  }

  lemma MarkFound(before: seq<string>, ip: string, rest: string)
    requires forall k :: 0 <= k < |before| ==> 'c' !in before[k]
    ensures Mark(Lines(before) + ConnectionLineFor(ip) + CRLF + rest, 0) == Some(|Lines(before)|)
  {
    var head := Lines(before);
    var sdp := head + ConnectionLineFor(ip) + CRLF + rest;
    LinesWithout(before, 'c');
    assert sdp[..|head|] == head && sdp[|head|..|head| + 2] == "c=";
    NoMatchWithout(sdp, "c=", 0, |head|);
    FindIs(sdp, "c=", 0, |head|);
  }

  lemma AfterLines(before: seq<string>, more: string)
    requires more != ""
    ensures AtLineStart(Lines(before) + more, |Lines(before)|)
  {
    var head := Lines(before);
    LinesEnd(before);
    if head != "" {
      assert head[|head| - 2..][0] == '\r' && head[|head| - 2..][1] == '\n';
    }
  }

  /** A connection line with an address, after lines without a 'c', is where the address comes from. */
  lemma AddressReadBack(before: seq<string>, ip: string, rest: string, default: string)
    requires forall k :: 0 <= k < |before| ==> 'c' !in before[k]
    requires ip != "" && NoSpaces(ip) && '/' !in ip
    ensures var sdp := Lines(before) + ConnectionLineFor(ip) + CRLF + rest;
            Address(sdp, Mark(sdp, 0), default) == ip
  {
    var head, line := Lines(before), ConnectionLineFor(ip);
    var sdp := head + line + CRLF + rest;
    MarkFound(before, ip, rest);
    AfterLines(before, line + CRLF + rest);
    assert sdp == head + (line + CRLF + rest);
    NoReturnIn(ip);
    RestOfLineIs(head, line, rest);
    ConnectionWords(ip);
    UpToAbsent(ip, '/');
    assert AddressAt(sdp, |head|) == Some(ip);
  }

  lemma NoReturnIn(ip: string)
    requires NoSpaces(ip)
    ensures '\r' !in ConnectionLineFor(ip)
  {
  }

  /** Where the parts of the audio line are found. */
  lemma AudioFound(before: string, digits: string, rest: string)
    requires 'u' !in before
    ensures Find(before + "m=audio" + " " + digits + " " + rest, "m=audio", 0) == Some(|before|)
  {
    var more := " " + digits + " " + rest;
    assert before + "m=audio" + " " + digits + " " + rest == before + "m=audio" + more;
    assert "m=audio"[3] == 'u' && "m=audio"[..3] == "m=a";
    FirstMatch(before, "m=audio", more, 3);
  }

  lemma AudioDigits(before: string, digits: string, rest: string)
    ensures var sdp := before + "m=audio" + " " + digits + " " + rest;
            MatchAt(sdp, digits, |before| + 8) && MatchAt(sdp, " ", |before| + 8 + |digits|)
  {
    var sdp, start := before + "m=audio" + " " + digits + " " + rest, |before| + 8;
    assert sdp[start..start + |digits|] == digits;
    assert sdp[start + |digits|..start + |digits| + 1] == " ";
  }

  lemma AudioPortAt(sdp: string, k: nat, port: nat, default: int)
    requires Find(sdp, "m=audio", 0) == Some(k)
    requires MatchAt(sdp, NatText(port), k + 8) && MatchAt(sdp, " ", k + 8 + |NatText(port)|)
    ensures AudioPort(sdp, default) == Some(port)
  {
    hide Find, Strtol, NatText;
    NumberUpTo(sdp, k + 8, port, " ");
  }

  /** A port, after text without a 'u', reads back. */
  lemma AudioPortReadBack(before: string, port: nat, rest: string, default: int)
    requires 'u' !in before
    ensures AudioPort(before + "m=audio" + " " + NatText(port) + " " + rest, default) == Some(port)
  {
    hide Find, AudioPort, NatText, MatchAt;
    AudioFound(before, NatText(port), rest);
    AudioDigits(before, NatText(port), rest);
    AudioPortAt(before + "m=audio" + " " + NatText(port) + " " + rest, |before|, port, default);
  }

  /** What stands behind the first m=audio, up to a space, is the port, and 0 if that is no number; without
      such a line the port stays what it was. */
  lemma AudioPortIs(before: string, text: string, rest: string, default: int)
    requires 'u' !in before && ' ' !in text
    ensures AudioPort(before + "m=audio" + " " + text + " " + rest, default) ==
            Some(match Strtol(text) case Some(n) => n case None => 0)
    ensures AudioPort(before, default) == Some(default)
    ensures AudioPort(before + "m=audio", default) == None
  {
    hide Strtol, Find;
    var sdp, start := before + "m=audio" + " " + text + " " + rest, |before| + 8;
    AudioFound(before, text, rest);
    AudioDigits(before, text, rest);
    forall j | start <= j < start + |text| ensures !MatchAt(sdp, " ", j) {
      assert sdp[j] == sdp[start..start + |text|][j - start];
      MatchChar(sdp, " ", j, 0);
    }
    FindIs(sdp, " ", start, start + |text|);
    NoAudio(before);
    AudioAtEnd(before);
  }

  lemma NoAudio(before: string)
    requires 'u' !in before
    ensures Find(before, "m=audio", 0) == None
  {
    assert "m=audio"[3] == 'u';
    assert before[..|before|] == before;
    NoMatchWithout(before, "m=audio", 3, |before|);
  }

  lemma AudioAtEnd(before: string)
    requires 'u' !in before
    ensures Find(before + "m=audio", "m=audio", 0) == Some(|before|)
  {
    assert "m=audio"[3] == 'u' && "m=audio"[..3] == "m=a";
    FirstMatch(before, "m=audio", "", 3);
    assert before + "m=audio" + "" == before + "m=audio";
  }

  /** A line that says nothing about the codec. */
  ghost predicate NoCodec(line: string) {
    && '\n' !in line
    && (Find(line + "\r", "a=rtpmap:", 0).None? || Find(line + "\r", "opus/", 0).None?)
  }

  lemma NoOpusIn(line: string)
    requires '\n' !in line && ('u' !in line || 'p' !in line)
    ensures NoCodec(line)
  {
    var s := line + "\r";
    assert "opus/"[1] == 'p' && "opus/"[2] == 'u';
    assert s[..|s|] == s;
    if 'u' !in line {
      NoMatchWithout(s, "opus/", 2, |s|);
    } else {
      NoMatchWithout(s, "opus/", 1, |s|);
    }
  }

  lemma {:induction false} NoCodecLines(ls: seq<string>, rest: string, info: SDPInfo)
    requires forall k :: 0 <= k < |ls| ==> NoCodec(ls[k])
    ensures Codec(Lines(ls) + rest, info) == Codec(rest, info)
  {
    if ls == [] {
      assert Lines(ls) + rest == rest;
    } else {
      var tail := Lines(ls[1..]) + rest;
      assert Lines(ls) + rest == ls[0] + "\r" + "\n" + tail;
      FirstLineIs(ls[0] + "\r", tail);
      NoCodecLines(ls[1..], rest, info);
    }
  }

  function OpusMap(pt: nat, rate: nat, parameters: string): string {
    OpusText(NatText(pt), NatText(rate), parameters)
  }

  function OpusText(pt: string, rate: string, parameters: string): string {
    "a=rtpmap:" + pt + " opus/" + rate + "/" + parameters
  }

  /** Where the parts of an rtpmap line for opus are found. */
  lemma OpusColon(a: string, b: string, parameters: string)
    ensures IndexOf(OpusText(a, b, parameters), ':') == Some(8)
  {
    var tail := a + " opus/" + b + "/" + parameters;
    assert OpusText(a, b, parameters) == "a=rtpmap" + [':'] + tail;
    assert ':' !in "a=rtpmap";
    IndexIs("a=rtpmap", ':', tail);
  }

  lemma OpusSlash(a: string, b: string, parameters: string)
    requires forall k :: 0 <= k < |a| ==> IsDigit(a[k])
    ensures IndexOf(OpusText(a, b, parameters), '/') == Some(|a| + 14)
  {
    var front, tail := "a=rtpmap:" + a + " opus", b + "/" + parameters;
    assert OpusText(a, b, parameters) == front + ['/'] + tail;
    assert '/' !in "a=rtpmap:" && '/' !in a && '/' !in " opus";
    IndexIs(front, '/', tail);
  }

  lemma OpusMentioned(a: string, b: string, parameters: string)
    ensures var line := OpusText(a, b, parameters);
            Find(line, "a=rtpmap:", 0).Some? && Find(line, "opus/", 0).Some?
  {
    var line, at := OpusText(a, b, parameters), |a| + 10;
    assert line[0..9] == "a=rtpmap:" && line[at..at + 5] == "opus/";
    assert MatchAt(line, "a=rtpmap:", 0) && MatchAt(line, "opus/", at);
  }

  lemma OpusNumbers(a: string, b: string, parameters: string)
    ensures var line := OpusText(a, b, parameters);
            && |line| >= |a| + 15 && line[9..|a| + 14] == a + " opus"
            && MatchAt(line, b, |a| + 15) && MatchAt(line, "/", |a| + 15 + |b|)
  {
    var line, start := OpusText(a, b, parameters), |a| + 15;
    assert line[start..start + |b|] == b;
    assert line[start + |b|..start + |b| + 1] == "/";
  }

  /** What such a line gives, from where its parts are found. */
  lemma CodecAt(line: string, slash: nat, end: nat, pt: Option<int>, hz: Option<int>, info: SDPInfo)
    requires Find(line, "a=rtpmap:", 0).Some? && Find(line, "opus/", 0).Some?
    requires IndexOf(line, ':') == Some(8) && IndexOf(line, '/') == Some(slash) && slash > 8
    requires Find(line, "/", slash + 1) == Some(end)
    requires Stoi(line[9..slash]) == pt && Stoi(line[slash + 1..end]) == hz
    ensures CodecLine(line, info) ==
            if pt.Some? && hz.Some? then Some(info.(isOpus := true, payloadType := pt.value, sampleRate := hz.value))
            else None
  {
  }

  /** What an int can hold. */
  function IfInt(n: nat): Option<int> {
    if n <= 2147483647 then Some(n) else None
  }

  lemma OpusPayload(line: string, slash: nat, pt: nat)
    requires 9 <= slash <= |line| && line[9..slash] == NatText(pt) + " opus"
    ensures Stoi(line[9..slash]) == IfInt(pt)
  {
    NatReadBack(pt, " opus");
  }

  lemma OpusRate(line: string, start: nat, rate: nat)
    requires MatchAt(line, NatText(rate), start) && MatchAt(line, "/", start + |NatText(rate)|)
    ensures var end := start + |NatText(rate)|;
            Find(line, "/", start) == Some(end) && Stoi(line[start..end]) == IfInt(rate)
  {
    NumberUpTo(line, start, rate, "/");
  }

  /** The places of an rtpmap line for opus. */
  ghost predicate OpusPlaces(line: string, slash: nat, end: nat, a: string, b: string) {
    && Find(line, "a=rtpmap:", 0).Some? && Find(line, "opus/", 0).Some?
    && IndexOf(line, ':') == Some(8) && IndexOf(line, '/') == Some(slash)
    && 9 <= slash <= |line| && line[9..slash] == a + " opus"
    && MatchAt(line, b, slash + 1) && MatchAt(line, "/", end) && end == slash + 1 + |b|
  }

  lemma OpusPlaced(a: string, b: string, parameters: string)
    requires forall k :: 0 <= k < |a| ==> IsDigit(a[k])
    ensures OpusPlaces(OpusText(a, b, parameters), |a| + 14, |a| + 15 + |b|, a, b)
  {
    OpusColon(a, b, parameters);
    OpusSlash(a, b, parameters);
    OpusMentioned(a, b, parameters);
    OpusNumbers(a, b, parameters);
  }

  lemma OpusParsed(line: string, slash: nat, end: nat, pt: nat, rate: nat, info: SDPInfo)
    requires OpusPlaces(line, slash, end, NatText(pt), NatText(rate))
    ensures CodecLine(line, info) == CodecOf(pt, rate, info)
  {
    hide Find, IndexOf, CodecLine, Stoi, NatText, MatchAt;
    OpusPayload(line, slash, pt);
    OpusRate(line, slash + 1, rate);
    CodecAt(line, slash, end, IfInt(pt), IfInt(rate), info);
  }

  /** Payload type and rate, if both fit an int. */
  function CodecOf(pt: nat, rate: nat, info: SDPInfo): Option<SDPInfo> {
    if pt <= 2147483647 && rate <= 2147483647
    then Some(SDPInfo(info.ip, info.port, pt, rate, true)) else None
  }

  /** An rtpmap line for opus gives payload type and sample rate, and fails exactly if one of them does not
      fit an int. */
  lemma OpusMapReadBack(pt: nat, rate: nat, parameters: string, info: SDPInfo)
    ensures CodecLine("a=rtpmap:" + NatText(pt) + " opus/" + NatText(rate) + "/" + parameters, info) ==
            if pt <= 2147483647 && rate <= 2147483647
            then Some(SDPInfo(info.ip, info.port, pt, rate, true)) else None
  {
    OpusPlaced(NatText(pt), NatText(rate), parameters);
    OpusParsed(OpusMap(pt, rate, parameters), |NatText(pt)| + 14, |NatText(pt)| + 15 + |NatText(rate)|, pt, rate, info);
  }

  /** Without a slash behind the rate only the payload type is taken. */
  lemma OpusWithoutParameters(pt: nat, rest: string, info: SDPInfo)
    requires pt <= 2147483647 && '/' !in rest
    ensures CodecLine("a=rtpmap:" + NatText(pt) + " opus/" + rest, info) ==
            Some(SDPInfo(info.ip, info.port, pt, info.sampleRate, true))
  {
    var a := NatText(pt);
    var line, slash := "a=rtpmap:" + a + " opus/" + rest, |a| + 14;
    OpusAlone(a, rest);
    OpusPayload(line, slash, pt);
  }

  /** The places of such a line. */
  lemma OpusAlone(a: string, rest: string)
    requires '/' !in rest && forall k :: 0 <= k < |a| ==> IsDigit(a[k])
    ensures var line := "a=rtpmap:" + a + " opus/" + rest;
            && Find(line, "a=rtpmap:", 0).Some? && Find(line, "opus/", 0).Some?
            && IndexOf(line, ':') == Some(8) && IndexOf(line, '/') == Some(|a| + 14)
            && line[9..|a| + 14] == a + " opus" && Find(line, "/", |a| + 15) == None
  {
    AloneMarks(a, rest);
    AloneSlash(a, rest);
    AloneEnd("a=rtpmap:" + a + " opus/", rest);
  }

  lemma AloneMarks(a: string, rest: string)
    ensures var line := "a=rtpmap:" + a + " opus/" + rest;
            Find(line, "a=rtpmap:", 0).Some? && Find(line, "opus/", 0).Some? && IndexOf(line, ':') == Some(8)
  {
    var line, at := "a=rtpmap:" + a + " opus/" + rest, |a| + 10;
    assert line[0..9] == "a=rtpmap:" && line[at..at + 5] == "opus/";
    assert MatchAt(line, "a=rtpmap:", 0) && MatchAt(line, "opus/", at);
    assert line == "a=rtpmap" + [':'] + (a + " opus/" + rest);
    assert ':' !in "a=rtpmap";
    IndexIs("a=rtpmap", ':', a + " opus/" + rest);
  }

  lemma AloneSlash(a: string, rest: string)
    requires forall k :: 0 <= k < |a| ==> IsDigit(a[k])
    ensures var line := "a=rtpmap:" + a + " opus/" + rest;
            IndexOf(line, '/') == Some(|a| + 14) && line[9..|a| + 14] == a + " opus"
  {
    var front := "a=rtpmap:" + a + " opus";
    assert "a=rtpmap:" + a + " opus/" + rest == front + ['/'] + rest;
    assert '/' !in "a=rtpmap:" && '/' !in a && '/' !in " opus";
    IndexIs(front, '/', rest);
  }

  lemma AloneEnd(front: string, rest: string)
    requires '/' !in rest
    ensures Find(front + rest, "/", |front|) == None
  {
    var s := front + rest;
    forall j: nat | |front| <= j ensures !MatchAt(s, "/", j) {
      if j < |s| {
        assert s[j] == rest[j - |front|];
        MatchChar(s, "/", j, 0);
      }
    }
  }

  lemma {:induction false} CodecAppend(ls: seq<string>, rest: string, info: SDPInfo)
    requires forall k :: 0 <= k < |ls| ==> '\n' !in ls[k]
    ensures Codec(Lines(ls) + rest, info) ==
            match Codec(Lines(ls), info)
            case None => None
            case Some(next) => Codec(rest, next)
  {
    if ls == [] {
      assert Lines(ls) + rest == rest;
    } else {
      var line, tail := ls[0] + "\r", Lines(ls[1..]);
      assert Lines(ls) == line + "\n" + tail && Lines(ls) + rest == line + "\n" + (tail + rest);
      FirstLineIs(line, tail);
      FirstLineIs(line, tail + rest);
      var next := CodecLine(line, info);
      if next.Some? { CodecAppend(ls[1..], rest, next.value); }
    }
  }

  /** The codec of an offer is that of its last opus line, whatever lines that can be read come before. */
  lemma OfferReadBack(before: seq<string>, pt: nat, rate: nat, parameters: string, after: seq<string>, info: SDPInfo)
    requires '\n' !in parameters && forall k :: 0 <= k < |before| ==> '\n' !in before[k]
    requires Codec(Lines(before), info).Some?
    requires forall k :: 0 <= k < |after| ==> NoCodec(after[k])
    ensures Codec(Lines(before + [OpusMap(pt, rate, parameters)] + after), info) ==
            var last := Codec(Lines(before), info).value;
            if pt <= 2147483647 && rate <= 2147483647
            then Some(SDPInfo(last.ip, last.port, pt, rate, true)) else None
  {
    var line := OpusMap(pt, rate, parameters);
    LinesAround(before, line, after);
    CodecAppend(before, line + CRLF + Lines(after), info);
    OpusLineThen(pt, rate, parameters, after, Codec(Lines(before), info).value);
  }

  lemma OpusLineThen(pt: nat, rate: nat, parameters: string, after: seq<string>, info: SDPInfo)
    requires '\n' !in parameters && forall k :: 0 <= k < |after| ==> NoCodec(after[k])
    ensures Codec(OpusMap(pt, rate, parameters) + CRLF + Lines(after), info) == CodecOf(pt, rate, info)
  {
    OpusLine(pt, rate, parameters);
    hide OpusMap, OpusText, CodecLine;
    CodecLineThen(OpusMap(pt, rate, parameters), after, info);
    OpusOfMap(pt, rate, parameters + "\r", info);
  }

  lemma OpusOfMap(pt: nat, rate: nat, parameters: string, info: SDPInfo)
    ensures CodecLine(OpusMap(pt, rate, parameters), info) == CodecOf(pt, rate, info)
  {
    OpusMapReadBack(pt, rate, parameters, info);
  }

  lemma OpusLine(pt: nat, rate: nat, parameters: string)
    requires '\n' !in parameters
    ensures '\n' !in OpusMap(pt, rate, parameters)
    ensures OpusMap(pt, rate, parameters) + "\r" == OpusMap(pt, rate, parameters + "\r")
  {
  }

  lemma CodecLineThen(line: string, after: seq<string>, info: SDPInfo)
    requires '\n' !in line && forall k :: 0 <= k < |after| ==> NoCodec(after[k])
    ensures Codec(line + CRLF + Lines(after), info) == CodecLine(line + "\r", info)
  {
    var first, rest := line + "\r", Lines(after);
    assert line + CRLF + rest == first + "\n" + rest && rest + "" == rest;
    FirstLineIs(first, rest);
    hide CodecLine, Lines, FirstLine, NoCodec;
    var next := CodecLine(first, info);
    if next.Some? { NoCodecLines(after, "", next.value); }
  }

  lemma LinesAround(before: seq<string>, line: string, after: seq<string>)
    ensures Lines(before + [line] + after) == Lines(before) + (line + CRLF + Lines(after))
  {
    LinesAppend(before, [line] + after);
    assert before + [line] + after == before + ([line] + after);
    assert ([line] + after)[1..] == after;
  }

  /* ---- the answer read back ---- */

  lemma AddressInLines(before: seq<string>, ip: string, rest: seq<string>)
    requires forall k :: 0 <= k < |before| ==> 'c' !in before[k]
    requires Numeric(ip)
    ensures var sdp := Lines(before + [ConnectionLineFor(ip)] + rest);
            Address(sdp, Mark(sdp, 0), "") == ip
  {
    LinesAround(before, ConnectionLineFor(ip), rest);
    NumericIsWord(ip);
    AddressReadBack(before, ip, Lines(rest), "");
    Assoc(Lines(before), ConnectionLineFor(ip), CRLF, Lines(rest));
  }

  lemma NumericIsWord(ip: string)
    requires Numeric(ip)
    ensures NoSpaces(ip) && '/' !in ip
  {
  }

  lemma Assoc(a: string, b: string, c: string, d: string)
    ensures a + (b + c + d) == a + b + c + d
  {
  }

  lemma AnswerAddress(ip: string, port: nat)
    requires Numeric(ip)
    ensures Address(Answer(ip, port), Mark(Answer(ip, port), 0), "") == ip
  {
    var rest := AnswerSession() + [AudioLine(port)] + AnswerTail(ip);
    OriginWithoutC(ip);
    AddressInLines(AnswerOrigin(ip), ip, rest);
    Regroup(AnswerOrigin(ip), [ConnectionLineFor(ip)], AnswerSession(), [AudioLine(port)], AnswerTail(ip));
  }

  lemma Regroup(a: seq<string>, b: seq<string>, c: seq<string>, d: seq<string>, e: seq<string>)
    ensures a + b + c + d + e == a + b + (c + d + e)
  {
  }

  lemma AnswerPort(ip: string, port: nat)
    requires Numeric(ip)
    ensures AudioPort(Answer(ip, port), 0) == Some(port)
  {
    var head, line, tail := AnswerHead(ip), AudioLine(port), Lines(AnswerTail(ip));
    LinesAround(head, line, AnswerTail(ip));
    HeadLines(ip);
    LinesWithout(head, 'u');
    AudioLineIs(Lines(head), port, tail);
    AudioPortReadBack(Lines(head), port, "RTP/AVP 8" + CRLF + tail, 0);
  }

  lemma AudioLineIs(before: string, port: nat, tail: string)
    ensures before + (AudioLine(port) + CRLF + tail) ==
            before + "m=audio" + " " + NatText(port) + " " + ("RTP/AVP 8" + CRLF + tail)
  {
  }

  /** A line without line feeds and without the character u. */
  predicate PlainLine(line: string) {
    '\n' !in line && 'u' !in line
  }

  ghost predicate Plain(ls: seq<string>) {
    forall k :: 0 <= k < |ls| ==> PlainLine(ls[k])
  }

  lemma OriginLines(ip: string)
    requires Numeric(ip)
    ensures Plain(AnswerOrigin(ip))
  {
    Joined("o=- 3953192465 3953192466 IN IP4 ", ip, 'u');
    Joined("o=- 3953192465 3953192466 IN IP4 ", ip, '\n');
  }

  lemma OriginWithoutC(ip: string)
    requires Numeric(ip)
    ensures forall k :: 0 <= k < |AnswerOrigin(ip)| ==> 'c' !in AnswerOrigin(ip)[k]
  {
    Joined("o=- 3953192465 3953192466 IN IP4 ", ip, 'c');
  }

  lemma ConnectionIsPlain(ip: string)
    requires Numeric(ip)
    ensures PlainLine(ConnectionLineFor(ip))
  {
    Joined("c=IN IP4 ", ip, 'u');
    Joined("c=IN IP4 ", ip, '\n');
  }

  lemma HeadLines(ip: string)
    requires Numeric(ip)
    ensures Plain(AnswerHead(ip))
  {
    OriginLines(ip);
    ConnectionIsPlain(ip);
  }

  lemma CodecLinesPlain()
    ensures Plain(AnswerCodecs())
  {
  }

  lemma SsrcPlain()
    ensures PlainLine("a=ssrc:766044304 cname:7b8072591a0e9c5a")
  {
  }

  lemma ProfilePlain()
    ensures PlainLine("a=fmtp:96 profile-level-id=42801F")
  {
  }

  lemma NackPlain()
    ensures PlainLine("a=rtcp-fb:96 nack pli")
  {
  }

  lemma RtcpPlain(ip: string)
    requires Numeric(ip)
    ensures PlainLine("a=rtcp:4001 IN IP4 " + ip)
  {
    Joined("a=rtcp:4001 IN IP4 ", ip, 'u');
    Joined("a=rtcp:4001 IN IP4 ", ip, '\n');
  }

  lemma VideoPlain()
    ensures PlainLine("m=video 0 RTP/AVP 96") && PlainLine("a=rtpmap:96 H264/90000")
  {
  }

  lemma TailLines(ip: string)
    requires Numeric(ip)
    ensures Plain(AnswerTail(ip))
  {
    CodecLinesPlain();
    SsrcPlain();
    ProfilePlain();
    NackPlain();
    RtcpPlain(ip);
    VideoPlain();
    ConnectionIsPlain(ip);
  }

  /** A text in front of a numeric address has the characters of the text, digits and dots. */
  lemma Joined(text: string, ip: string, c: char)
    requires Numeric(ip) && c !in text && !IsDigit(c) && c != '.'
    ensures c !in text + ip
  {
  }

  lemma AnswerCodec(ip: string, port: nat, info: SDPInfo)
    requires Numeric(ip)
    ensures Codec(Answer(ip, port), info) == Some(info)
  {
    var ls := AnswerHead(ip) + [AudioLine(port)] + AnswerTail(ip);
    HeadLines(ip);
    TailLines(ip);
    AudioLinePlain(port);
    forall k | 0 <= k < |ls| ensures NoCodec(ls[k]) {
      NoOpusIn(ls[k]);
    }
    NoCodecLines(ls, "", info);
    assert Lines(ls) + "" == Lines(ls);
  }

  lemma AudioLinePlain(port: nat)
    ensures '\n' !in AudioLine(port) && 'p' !in AudioLine(port)
  {
  }

  /** Round trip: the parser, given any response that carries the server's own answer, returns the address
      and the port of the answer and finds no opus. */
  lemma AnswerReadBack(statusLine: string, via: string, from: string, to: string, callId: string, cseq: int,
                       toTag: string, ip: string, port: nat)
    requires OneLine(via) && OneLine(from) && OneLine(to) && OneLine(callId) && OneLine(toTag) && OneLine(statusLine)
    requires Numeric(ip)
    ensures Parsed(ResponseWithSdp(statusLine, via, from, to, callId, cseq, toTag, Answer(ip, port))) ==
            Some(SDPInfo(ip, port, -1, 0, false))
  {
    var sdp := Answer(ip, port);
    var hs := ReplyHeaders(via, from, to, callId, cseq, "INVITE", toTag, Some(|sdp|));
    ResponseHeaders(via, from, to, callId, cseq, "INVITE", toTag, Some(|sdp|));
    NamesAreFit(hs);
    BodyReadBack(statusLine, hs, sdp);
    AnswerAddress(ip, port);
    AnswerPort(ip, port);
    AnswerCodec(ip, port, NO_INFO.(ip := ip, port := port));
  }

  lemma {:induction false} NoHeaderIn(ls: seq<string>, name: string)
    requires name != "" && forall k :: 0 <= k < |ls| ==> OneLine(ls[k]) && ls[k] != "" && ls[k][0] != name[0]
    ensures ExtractHeader(Lines(ls), name) == ""
  {
    if ls == [] {
    } else {
      var line, rest := ls[0] + "\r", Lines(ls[1..]);
      assert Lines(ls) == line + "\n" + rest;
      LineThen(line, rest, name);
      assert line[0] != name[0];
      NoHeaderIn(ls[1..], name);
    }
  }

  /** No line of the answer could be taken for a header. */
  lemma AnswerSuppliesNothing(ip: string, port: nat, k: nat)
    requires Numeric(ip) && k < |NAMES|
    ensures ExtractHeader(Answer(ip, port), NAMES[k]) == ""
  {
    var ls := AnswerHead(ip) + [AudioLine(port)] + AnswerTail(ip);
    HeadLines(ip);
    TailLines(ip);
    AudioLinePlain(port);
    forall j | 0 <= j < |ls| ensures OneLine(ls[j]) && ls[j] != "" && ls[j][0] != NAMES[k][0] {
      LowerCase(ip, port, j);
    }
    NoHeaderIn(ls, NAMES[k]);
  }

  lemma LowerCase(ip: string, port: nat, j: nat)
    requires j < |AnswerHead(ip) + [AudioLine(port)] + AnswerTail(ip)|
    ensures var line := (AnswerHead(ip) + [AudioLine(port)] + AnswerTail(ip))[j];
            line != "" && 'a' <= line[0] <= 'z'
  {
  }

  /** Round trip of the response to an INVITE: each of its headers, empty or not, comes back exactly if it
      is clean. */
  lemma InviteReadBack(statusLine: string, via: string, from: string, to: string, callId: string, cseq: int,
                       toTag: string, ip: string, port: nat)
    requires OneLine(via) && OneLine(from) && OneLine(to) && OneLine(callId) && OneLine(toTag)
    requires OneLine(statusLine) && statusLine != "" && statusLine[0] == 'S' && Numeric(ip)
    ensures HeadersReadBackIff(ResponseWithSdp(statusLine, via, from, to, callId, cseq, toTag, Answer(ip, port)),
                               "", via, from, TaggedTo(to, toTag), callId, IntText(cseq) + " " + "INVITE")
  {
    var sdp := Answer(ip, port);
    SdpResponseReadBack(statusLine, via, from, to, callId, cseq, toTag, sdp);
    AnswerSuppliesNothing(ip, port, 0);
    AnswerSuppliesNothing(ip, port, 1);
    AnswerSuppliesNothing(ip, port, 2);
    AnswerSuppliesNothing(ip, port, 3);
    AnswerSuppliesNothing(ip, port, 4);
  }

  /** End to end, for any INVITE whatever: the response with the server's answer gives the caller its own
      headers back, and the number. */
  lemma InviteEchoed(request: string, statusLine: string, cseq: int, toTag: string, ip: string, port: nat)
    requires OneLine(statusLine) && statusLine != "" && statusLine[0] == 'S' && Numeric(ip)
    requires -0x8000_0000 <= cseq < 0x8000_0000
    requires OneLine(toTag) && (toTag != "" ==> toTag[|toTag| - 1] != '\r')
    ensures var reply := ResponseWithSdp(statusLine, ExtractHeader(request, "Via"), ExtractHeader(request, "From"),
                                         ExtractHeader(request, "To"), ExtractHeader(request, "Call-ID"), cseq, toTag,
                                         Answer(ip, port));
            Echoes(request, reply, cseq, toTag)
  {
    var via, from := ExtractHeader(request, "Via"), ExtractHeader(request, "From");
    var to, callId := ExtractHeader(request, "To"), ExtractHeader(request, "Call-ID");
    var reply := ResponseWithSdp(statusLine, via, from, to, callId, cseq, toTag, Answer(ip, port));
    ExtractedAreOneLine(request);
    InviteReadBack(statusLine, via, from, to, callId, cseq, toTag, ip, port);
    EchoOf(request, reply, cseq, "INVITE", toTag);
  }

  /* ---- the codec of the answer ---- */

  /** The answer, line by line: the session with its address, the audio, and a video stream that is refused. */
  lemma AnswerText(ip: string, port: nat)
    ensures Answer(ip, port) ==
            Lines(["v=0", "o=- 3953192465 3953192466 IN IP4 " + ip, "s=pjmedia", "c=IN IP4 " + ip, "b=AS:84", "t=0 0",
                   "a=X-nat:0"] +
                  ["m=audio " + NatText(port) + " RTP/AVP 8", "a=rtcp:4001 IN IP4 " + ip,
                   "a=ssrc:766044304 cname:7b8072591a0e9c5a", "a=rtpmap:8 PCMA/8000", "a=fmtp:8 0-16",
                   "a=rtpmap:121 telephone-event/8000", "a=fmtp:121 0-16", "a=rtcp-fb:* ccm tmmbr"] +
                  ["m=video 0 RTP/AVP 96", "c=IN IP4 " + ip, "a=rtpmap:96 H264/90000",
                   "a=fmtp:96 profile-level-id=42801F", "a=rtcp-fb:96 nack pli"])
  {
    hide Lines;
    assert AnswerHead(ip) == ["v=0", "o=- 3953192465 3953192466 IN IP4 " + ip, "s=pjmedia", "c=IN IP4 " + ip,
                              "b=AS:84", "t=0 0", "a=X-nat:0"];
    var audio := ["m=audio " + NatText(port) + " RTP/AVP 8", "a=rtcp:4001 IN IP4 " + ip,
                  "a=ssrc:766044304 cname:7b8072591a0e9c5a", "a=rtpmap:8 PCMA/8000", "a=fmtp:8 0-16",
                  "a=rtpmap:121 telephone-event/8000", "a=fmtp:121 0-16", "a=rtcp-fb:* ccm tmmbr"];
    assert [AudioLine(port)] + AnswerAudio(ip) == audio;
    assert AnswerVideo(ip) == ["m=video 0 RTP/AVP 96", "c=IN IP4 " + ip, "a=rtpmap:96 H264/90000",
                               "a=fmtp:96 profile-level-id=42801F", "a=rtcp-fb:96 nack pli"];
    assert AnswerHead(ip) + [AudioLine(port)] + AnswerTail(ip) == AnswerHead(ip) + audio + AnswerVideo(ip);
  }

  /** How a caller reads a description: what follows `prefix` on the first line that begins with it. */
  function LineWith(sdp: string, prefix: string): Option<string>
    decreases |sdp|
  {
    if sdp == "" then None else
      var line := FirstLine(sdp);
      if prefix <= line.0 then Some(DropTrail(line.0[|prefix|..])) else LineWith(line.1, prefix)
  }

  lemma {:induction false} LineWithIs(ls: seq<string>, k: nat, prefix: string, value: string)
    requires k < |ls| && ls[k] == prefix + value && Clean(value) && forall j :: 0 <= j <= k ==> OneLine(ls[j])
    requires forall j :: 0 <= j < k ==> Differ(prefix, ls[j])
    ensures LineWith(Lines(ls), prefix) == Some(value)
  {
    var line, rest := ls[0] + "\r", Lines(ls[1..]);
    assert Lines(ls) == line + "\n" + rest;
    FirstLineIs(line, rest);
    if k == 0 {
      assert line[|prefix|..] == value + "\r";
      TrailAfter(value);
    } else {
      var i :| 0 <= i < |prefix| && i < |ls[0]| && prefix[i] != ls[0][i];
      assert line[i] == ls[0][i];
      LineWithIs(ls[1..], k - 1, prefix, value);
    }
  }

  lemma AnswerLinesAreOne(ip: string, port: nat)
    requires Numeric(ip)
    ensures var ls := AnswerHead(ip) + [AudioLine(port)] + AnswerTail(ip);
            Answer(ip, port) == Lines(ls) && |ls| == 20 && forall j :: 0 <= j < |ls| ==> OneLine(ls[j])
  {
    hide Lines;
    HeadLines(ip);
    TailLines(ip);
    AudioLinePlain(port);
  }

  lemma AudioLineFirst(ip: string, port: nat)
    ensures var ls := AnswerHead(ip) + [AudioLine(port)] + AnswerTail(ip);
            && |ls| == 20 && ls[7] == "m=audio " + (NatText(port) + " RTP/AVP 8")
            && (forall j :: 0 <= j < 7 ==> Differ("m=audio ", ls[j])) && Clean(NatText(port) + " RTP/AVP 8")
  {
    var ls := AnswerHead(ip) + [AudioLine(port)] + AnswerTail(ip);
    forall j | 0 <= j < 7 ensures Differ("m=audio ", ls[j]) {
      assert "m=audio "[0] != ls[j][0];
    }
    assert IsDigit((NatText(port) + " RTP/AVP 8")[0]);
  }

  lemma RtpmapFirst(ip: string, port: nat)
    ensures var ls := AnswerHead(ip) + [AudioLine(port)] + AnswerTail(ip);
            && |ls| == 20 && ls[10] == "a=rtpmap:8 " + "PCMA/8000"
            && (forall j :: 0 <= j < 10 ==> Differ("a=rtpmap:8 ", ls[j])) && Clean("PCMA/8000")
  {
    var ls := AnswerHead(ip) + [AudioLine(port)] + AnswerTail(ip);
    forall j | 0 <= j < 10 ensures Differ("a=rtpmap:8 ", ls[j]) {
      if j == 8 {
        assert "a=rtpmap:8 "[4] != ls[j][4];
      } else if j == 6 || j == 9 {
        assert "a=rtpmap:8 "[2] != ls[j][2];
      } else {
        assert "a=rtpmap:8 "[0] != ls[j][0];
      }
    }
  }

  /** Format and encoding of the audio in the answer. */
  lemma AnswerCodecReadBack(ip: string, port: nat)
    requires Numeric(ip)
    ensures LineWith(Answer(ip, port), "m=audio ") == Some(NatText(port) + " RTP/AVP 8")
    ensures LineWith(Answer(ip, port), "a=rtpmap:8 ") == Some("PCMA/8000")
  {
    var ls := AnswerHead(ip) + [AudioLine(port)] + AnswerTail(ip);
    AnswerLinesAreOne(ip, port);
    AudioLineFirst(ip, port);
    RtpmapFirst(ip, port);
    hide *;
    LineWithIs(ls, 7, "m=audio ", NatText(port) + " RTP/AVP 8");
    LineWithIs(ls, 10, "a=rtpmap:8 ", "PCMA/8000");
  }

  /** How a channel is opened for a caller (handleINVITE). */
  datatype CallContext = CallContext(codecType: int, payloadType: int, inRate: int, outRate: int)

  function ContextOf(info: SDPInfo): CallContext {
    if info.isOpus then CallContext(2, info.payloadType, info.sampleRate, info.sampleRate)
    else CallContext(1, 8, 8000, 8000)
  }

  /** The description names, for the audio port, the payload type and encoding that the channel is opened
      with. */
  ghost predicate Agrees(sdp: string, port: nat, c: CallContext) {
    && LineWith(sdp, "m=audio ") == Some(NatText(port) + " RTP/AVP " + IntText(c.payloadType))
    && LineWith(sdp, "a=rtpmap:" + IntText(c.payloadType) + " ") ==
       Some((if c.codecType == 2 then "opus/" else "PCMA/") + IntText(c.inRate))
  }

  /** A caller is told the codec that its channel is opened with if and only if it did not offer opus: the
      answer always says A-law, though for an opus offer the channel is opened with opus. */
  lemma AnswerAgreesIff(info: SDPInfo, ip: string, port: nat)
    requires Numeric(ip)
    ensures Agrees(Answer(ip, port), port, ContextOf(info)) <==> !info.isOpus
  {
    AnswerCodecReadBack(ip, port);
    AlawNumbers();
    if info.isOpus {
      assert "PCMA/8000"[0] != ("opus/" + IntText(info.sampleRate))[0];
      if Agrees(Answer(ip, port), port, ContextOf(info)) {
        FormatIs(NatText(port), info.payloadType);
        assert false;
      }
    } else {
      assert "a=rtpmap:" + "8" + " " == "a=rtpmap:8 " && "PCMA/" + "8000" == "PCMA/8000";
      assert NatText(port) + " RTP/AVP " + "8" == NatText(port) + " RTP/AVP 8";
    }
  }

  lemma AlawNumbers()
    ensures IntText(8) == "8" && IntText(8000) == "8000"
  {
    DecimalText(8, 0);
    DecimalText(80, 0);
    DecimalText(800, 0);
    DecimalText(1, 8);
  }

  lemma FormatIs(front: string, pt: int)
    requires front + " RTP/AVP 8" == front + " RTP/AVP " + IntText(pt)
    ensures pt == 8 && "a=rtpmap:" + IntText(pt) + " " == "a=rtpmap:8 "
  {
    var s, n := front + " RTP/AVP 8", |front| + 9;
    assert s[n..] == "8";
    assert (front + " RTP/AVP " + IntText(pt))[n..] == IntText(pt);
    NumberReadBack(pt, "");
    AlawNumbers();
    NumberReadBack(8, "");
    assert IntText(pt) + "" == IntText(pt) && IntText(8) + "" == IntText(8);
  }
}
