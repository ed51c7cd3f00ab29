/** SIP responses and the functions that take them apart again (src/spu.cpp). */
module Sip {
  import opened Pcm
  import opened Text

  datatype Header = Header(name: string, value: string)

  /* ---- printing ---- */

  function HeaderLine(h: Header): string {
    h.name + ": " + h.value + "\r"
  }

  function HeaderBlock(hs: seq<Header>): string {
    if hs == [] then "" else HeaderLine(hs[0]) + "\n" + HeaderBlock(hs[1..])
  }

  function Message(statusLine: string, hs: seq<Header>, body: string): string {
    statusLine + "\r" + "\n" + (HeaderBlock(hs) + CRLF + body)
  }

  /** The To value, with the tag if there is one to add and none yet. */
  function TaggedTo(to: string, toTag: string): string {
    if toTag != "" && Find(to, "tag=", 0).None? then to + ";tag=" + toTag else to
  }

  function CommonHeaders(via: string, from: string, to: string, callId: string, cseq: int, verb: string,
                         toTag: string): seq<Header> {
    [Header("Via", via), Header("From", from), Header("To", TaggedTo(to, toTag)), Header("Call-ID", callId),
     Header("CSeq", IntText(cseq) + " " + verb)]
  }

  /** The headers that describe the body; `length` is None if there is no body. */
  function BodyHeaders(length: Option<nat>): seq<Header> {
    match length
    case None => [Header("Content-Length", "0")]
    case Some(n) => [Header("Content-Type", "application/sdp"), Header("Content-Length", NatText(n))]
  }

  function ReplyHeaders(via: string, from: string, to: string, callId: string, cseq: int, verb: string,
                        toTag: string, length: Option<nat>): seq<Header>
  {
    CommonHeaders(via, from, to, callId, cseq, verb, toTag) + BodyHeaders(length)
  }

  /** constructSIPResponse. */
  function Response(statusLine: string, via: string, from: string, to: string, callId: string, cseq: int,
                    verb: string, toTag: string): string
  {
    Message(statusLine, ReplyHeaders(via, from, to, callId, cseq, verb, toTag, None), "")
  }

  /** constructSIPResponseWithSDP. */
  function ResponseWithSdp(statusLine: string, via: string, from: string, to: string, callId: string, cseq: int,
                           toTag: string, sdp: string): string
  {
    Message(statusLine, ReplyHeaders(via, from, to, callId, cseq, "INVITE", toTag, Some(|sdp|)), sdp)
  }

  /** The lines that print these headers. */
  ghost predicate Prints(hs: seq<Header>, ls: seq<string>) {
    |ls| == |hs| && forall k :: 0 <= k < |hs| ==> ls[k] == hs[k].name + ": " + hs[k].value
  }

  lemma {:induction false} BlockIsLines(hs: seq<Header>, ls: seq<string>)
    requires Prints(hs, ls)
    ensures HeaderBlock(hs) == Lines(ls)
  {
    if hs == [] {
    } else {
      BlockIsLines(hs[1..], ls[1..]);
      assert HeaderLine(hs[0]) + "\n" == ls[0] + CRLF;
    }
  }

  lemma MessageIsLines(statusLine: string, hs: seq<Header>, ls: seq<string>, body: string)
    requires Prints(hs, ls)
    ensures Message(statusLine, hs, body) == Lines([statusLine] + ls + [""]) + body
  {
    BlockIsLines(hs, ls);
    LinesAppend([statusLine] + ls, [""]);
    assert ([statusLine] + ls)[1..] == ls;
    Blank();
    Grouped(statusLine, Lines(ls), body);
  }

  lemma Blank()
    ensures Lines([""]) == "\r\n"
  {
    assert Lines([""][1..]) == "";
  }

  lemma Grouped(line: string, block: string, body: string)
    ensures line + "\r" + "\n" + (block + CRLF + body) == line + CRLF + block + "\r\n" + body
  {
  }

  lemma CommonPrints(via: string, from: string, to: string, callId: string, cseq: int, verb: string, toTag: string)
    ensures Prints(CommonHeaders(via, from, to, callId, cseq, verb, toTag),
                   ["Via: " + via, "From: " + from, "To: " + TaggedTo(to, toTag), "Call-ID: " + callId,
                    "CSeq: " + IntText(cseq) + " " + verb])
  {
    assert "Via" + ": " == "Via: " && "From" + ": " == "From: " && "To" + ": " == "To: ";
    assert "Call-ID" + ": " == "Call-ID: " && "CSeq" + ": " == "CSeq: ";
    assert "CSeq: " + IntText(cseq) + " " + verb == "CSeq: " + (IntText(cseq) + " " + verb);
  }

  lemma NoBodyPrints()
    ensures Prints(BodyHeaders(None), ["Content-Length: 0"])
  {
    assert "Content-Length" + ": " + "0" == "Content-Length: 0";
  }

  lemma BodyPrints(n: nat)
    ensures Prints(BodyHeaders(Some(n)), ["Content-Type: application/sdp", "Content-Length: " + NatText(n)])
  {
    assert "Content-Type" + ": " + "application/sdp" == "Content-Type: application/sdp";
    assert "Content-Length" + ": " == "Content-Length: ";
  }

  lemma ReplyIsLines(statusLine: string, a: seq<Header>, b: seq<Header>, la: seq<string>, lb: seq<string>, body: string)
    requires Prints(a, la) && Prints(b, lb)
    ensures Message(statusLine, a + b, body) == Lines([statusLine] + (la + lb) + [""]) + body
  {
    MessageIsLines(statusLine, a + b, la + lb, body);
  }

  lemma ResponseParts(statusLine: string, via: string, from: string, to: string, callId: string, cseq: int,
                      verb: string, toTag: string, sdp: string)
    ensures Response(statusLine, via, from, to, callId, cseq, verb, toTag) ==
            Message(statusLine, CommonHeaders(via, from, to, callId, cseq, verb, toTag) + BodyHeaders(None), "")
    ensures ResponseWithSdp(statusLine, via, from, to, callId, cseq, toTag, sdp) ==
            Message(statusLine, CommonHeaders(via, from, to, callId, cseq, "INVITE", toTag) + BodyHeaders(Some(|sdp|)),
                    sdp)
  {
  }

  /** The lines of a response without a body, in their order; the last one is blank. */
  lemma ResponseText(statusLine: string, via: string, from: string, to: string, callId: string, cseq: int,
                     verb: string, toTag: string)
    ensures Response(statusLine, via, from, to, callId, cseq, verb, toTag) ==
            Lines([statusLine] + (["Via: " + via, "From: " + from, "To: " + TaggedTo(to, toTag), "Call-ID: " + callId,
                                   "CSeq: " + IntText(cseq) + " " + verb] + ["Content-Length: 0"]) + [""]) + ""
  {
    hide *;
    ResponseParts(statusLine, via, from, to, callId, cseq, verb, toTag, "");
    CommonPrints(via, from, to, callId, cseq, verb, toTag);
    NoBodyPrints();
    ReplyIsLines(statusLine, CommonHeaders(via, from, to, callId, cseq, verb, toTag), BodyHeaders(None),
                 ["Via: " + via, "From: " + from, "To: " + TaggedTo(to, toTag), "Call-ID: " + callId,
                  "CSeq: " + IntText(cseq) + " " + verb], ["Content-Length: 0"], "");
  }

  /** The lines of a response that carries a description, which follows the blank one. */
  lemma SdpResponseText(statusLine: string, via: string, from: string, to: string, callId: string, cseq: int,
                        toTag: string, sdp: string)
    ensures ResponseWithSdp(statusLine, via, from, to, callId, cseq, toTag, sdp) ==
            Lines([statusLine] + (["Via: " + via, "From: " + from, "To: " + TaggedTo(to, toTag), "Call-ID: " + callId,
                                   "CSeq: " + IntText(cseq) + " " + "INVITE"] +
                                  ["Content-Type: application/sdp", "Content-Length: " + NatText(|sdp|)]) + [""]) + sdp
  {
    hide *;
    ResponseParts(statusLine, via, from, to, callId, cseq, "INVITE", toTag, sdp);
    CommonPrints(via, from, to, callId, cseq, "INVITE", toTag);
    BodyPrints(|sdp|);
    ReplyIsLines(statusLine, CommonHeaders(via, from, to, callId, cseq, "INVITE", toTag), BodyHeaders(Some(|sdp|)),
                 ["Via: " + via, "From: " + from, "To: " + TaggedTo(to, toTag), "Call-ID: " + callId,
                  "CSeq: " + IntText(cseq) + " " + "INVITE"],
                 ["Content-Type: application/sdp", "Content-Length: " + NatText(|sdp|)], sdp);
  }

  /* ---- parsing ---- */

  function IndexOf(s: string, c: char): (r: Option<nat>)
    ensures r.Some? ==> r.value < |s| && s[r.value] == c && c !in s[..r.value]
    ensures r.None? ==> c !in s
  {
    if s == "" then None
    else if s[0] == c then Some(0)
    else
      match IndexOf(s[1..], c)
      case Some(k) =>
        assert s[..k + 1] == [s[0]] + s[1..][..k];
        Some(k + 1)
      case None =>
        assert s == [s[0]] + s[1..];
        None
  }

  function UpTo(s: string, c: char): (r: string)
    ensures c !in r && r <= s && (r != s ==> s[|r|] == c)
  {
    match IndexOf(s, c)
    case Some(k) => s[..k]
    case None => s
  }

  /** The value on a line, if the line starts with the name and has one. */
  function ValueOf(line: string, name: string): Option<string> {
    if !(name <= line) then None else
      match IndexOf(line, ':')
      case None => None
      case Some(colon) =>
        var value := DropLead(line[colon + 1..]);
        if value == "" then None else Some(DropTrail(value))
  }

  /** extractHeader: the first line with a value; the empty string if there is none. */
  function ExtractHeader(message: string, name: string): string
    decreases |message|
  {
    if message == "" then "" else
      var line := FirstLine(message);
      match ValueOf(line.0, name)
      case Some(v) => v
      case None => ExtractHeader(line.1, name)
  }

  /** The CSeq number a handler takes from a message; None where std::stoi throws. */
  function CSeqNumber(message: string): Option<int> {
    Stoi(UpTo(ExtractHeader(message, "CSeq"), ' '))
  }

  const BLANK_LINE: string := CRLF + CRLF

  /** extractMessageBody. */
  function ExtractMessageBody(message: string): string {
    match Find(message, BLANK_LINE, 0)
    case Some(k) => message[k + 4..]
    case None => ""
  }

  /** extractFromTag. */
  function ExtractFromTag(header: string): string {
    match Find(header, "tag=", 0)
    case None => ""
    case Some(k) =>
      var start := k + 4;
      match Find(header, ";", start)
      case Some(end) => header[start..end]
      case None => header[start..]
  }

  /* ---- headers read back ---- */

  /** What a header value becomes on its way: leading blanks and trailing carriage returns are lost. */
  function Trimmed(v: string): string {
    DropTrail(DropLead(v))
  }

  /** Two names that differ where both have a character. */
  ghost predicate Differ(a: string, b: string) {
    exists i :: 0 <= i < |a| && i < |b| && a[i] != b[i]
  }

  lemma ValueMissed(h: Header, name: string)
    requires Differ(name, h.name)
    ensures ValueOf(HeaderLine(h), name) == None
  {
    var i :| 0 <= i < |name| && i < |h.name| && name[i] != h.name[i];
    assert HeaderLine(h)[i] == h.name[i];
  }

  lemma {:induction false} IndexIs(a: string, c: char, b: string)
    requires c !in a
    ensures IndexOf(a + [c] + b, c) == Some(|a|)
  {
    if a == "" {
    } else {
      assert (a + [c] + b)[1..] == a[1..] + [c] + b;
      IndexIs(a[1..], c, b);
    }
  }

  lemma ValueFound(h: Header)
    requires ':' !in h.name
    ensures ValueOf(HeaderLine(h), h.name) == if DropLead(h.value) == "" then None else Some(Trimmed(h.value))
  {
    var line := HeaderLine(h);
    var n := |h.name|;
    assert line[..n] == h.name;
    IndexIs(h.name, ':', " " + (h.value + "\r"));
    assert line == h.name + [':'] + (" " + (h.value + "\r"));
    assert line[n + 1..] == " " + (h.value + "\r");
    BlanksFirst(h.value);
  }

  lemma BlankLead(c: char, s: string)
    requires IsBlank(c)
    ensures DropLead([c] + s) == DropLead(s)
  {
    assert ([c] + s)[1..] == s;
  }

  lemma {:induction false} LeadBefore(v: string, rest: string)
    ensures DropLead(v + rest) == if DropLead(v) == "" then DropLead(rest) else DropLead(v) + rest
  {
    if v == "" {
      assert v + rest == rest;
    } else if IsBlank(v[0]) {
      assert (v + rest)[1..] == v[1..] + rest;
      LeadBefore(v[1..], rest);
    }
  }

  lemma TrailAfter(s: string)
    ensures DropTrail(s + "\r") == DropTrail(s)
  {
    assert (s + "\r")[..|s|] == s;
  }

  lemma BlanksFirst(v: string)
    ensures DropLead(" " + (v + "\r")) == if DropLead(v) == "" then "" else DropLead(v) + "\r"
    ensures DropTrail(DropLead(v) + "\r") == Trimmed(v)
  {
    BlankLead(' ', v + "\r");
    LeadBefore(v, "\r");
    BlankLead('\r', "");
    assert "\r" == ['\r'] + "";
    TrailAfter(DropLead(v));
  }

  /** Nothing that would break the line structure. */
  ghost predicate OneLine(s: string) {
    '\n' !in s
  }

  ghost predicate WellFormed(hs: seq<Header>) {
    forall k :: 0 <= k < |hs| ==>
      OneLine(hs[k].name) && OneLine(hs[k].value) && ':' !in hs[k].name && hs[k].name != "" && hs[k].name[0] != '\r'
  }

  lemma LineThen(line: string, rest: string, name: string)
    requires OneLine(line)
    ensures ExtractHeader(line + "\n" + rest, name) ==
            match ValueOf(line, name)
            case Some(v) => v
            case None => ExtractHeader(rest, name)
  {
    FirstLineIs(line, rest);
  }

  /** Which lines count, in any message: the first that begins with the name, whatever the name goes on to,
      and has something other than blanks behind its first colon; all others are passed over. */
  lemma HeaderLineCounts(front: string, value: string, rest: string, name: string)
    requires OneLine(front) && OneLine(value) && ':' !in front
    ensures ExtractHeader(front + ":" + value + "\n" + rest, name) ==
            if name <= front + ":" + value && DropLead(value) != "" then Trimmed(value) else ExtractHeader(rest, name)
    ensures ExtractHeader(front + "\n" + rest, name) == ExtractHeader(rest, name)
    ensures ExtractHeader("", name) == ""
  {
    var line := front + ":" + value;
    LineThen(line, rest, name);
    LineThen(front, rest, name);
    IndexIs(front, ':', value);
    assert line == front + [':'] + value;
    assert line[|front| + 1..] == value;
  }

  /** Lines that start differently are passed over. */
  lemma {:induction false} BlockMissed(hs: seq<Header>, tail: string, name: string)
    requires WellFormed(hs) && forall k :: 0 <= k < |hs| ==> Differ(name, hs[k].name)
    ensures ExtractHeader(HeaderBlock(hs) + tail, name) == ExtractHeader(tail, name)
    decreases |hs|
  {
    if hs == [] {
      assert HeaderBlock(hs) + tail == tail;
    } else {
      var rest := HeaderBlock(hs[1..]) + tail;
      assert HeaderBlock(hs) + tail == HeaderLine(hs[0]) + "\n" + rest;
      LineThen(HeaderLine(hs[0]), rest, name);
      ValueMissed(hs[0], name);
      BlockMissed(hs[1..], tail, name);
    }
  }

  lemma {:induction false} BlockFound(hs: seq<Header>, tail: string, k: nat)
    requires WellFormed(hs) && k < |hs|
    requires forall j :: 0 <= j < |hs| && j != k ==> Differ(hs[k].name, hs[j].name)
    ensures ExtractHeader(HeaderBlock(hs) + tail, hs[k].name) ==
            if DropLead(hs[k].value) == "" then ExtractHeader(tail, hs[k].name) else Trimmed(hs[k].value)
    decreases |hs|
  {
    hide ValueOf, DropLead, Trimmed;
    var name := hs[k].name;
    var rest := HeaderBlock(hs[1..]) + tail;
    assert HeaderBlock(hs) + tail == HeaderLine(hs[0]) + "\n" + rest;
    LineThen(HeaderLine(hs[0]), rest, name);
    if k == 0 {
      ValueFound(hs[0]);
      BlockMissed(hs[1..], tail, name);
    } else {
      ValueMissed(hs[0], name);
      BlockFound(hs[1..], tail, k - 1);
    }
  }

  lemma StatusMissed(statusLine: string, name: string)
    requires Differ(name, statusLine)
    ensures ValueOf(statusLine + "\r", name) == None
  {
    var i :| 0 <= i < |name| && i < |statusLine| && name[i] != statusLine[i];
    assert (statusLine + "\r")[i] == statusLine[i];
  }

  /** A header of a message reads back as its trimmed value, provided no field has a line feed and the
      status line starts with something else. */
  lemma HeaderReadBack(statusLine: string, hs: seq<Header>, body: string, k: nat)
    requires OneLine(statusLine) && WellFormed(hs) && k < |hs| && Differ(hs[k].name, statusLine)
    requires forall j :: 0 <= j < |hs| && j != k ==> Differ(hs[k].name, hs[j].name)
    ensures ExtractHeader(Message(statusLine, hs, body), hs[k].name) ==
            if DropLead(hs[k].value) == "" then ExtractHeader(body, hs[k].name) else Trimmed(hs[k].value)
  {
    var name, tail := hs[k].name, CRLF + body;
    MessageShape(statusLine, hs, body);
    LineThen(statusLine + "\r", HeaderBlock(hs) + tail, name);
    StatusMissed(statusLine, name);
    BlockFound(hs, tail, k);
    BlankLineMissed(body, name);
  }

  lemma MessageShape(statusLine: string, hs: seq<Header>, body: string)
    ensures Message(statusLine, hs, body) == statusLine + "\r" + "\n" + (HeaderBlock(hs) + (CRLF + body))
  {
    assert HeaderBlock(hs) + CRLF + body == HeaderBlock(hs) + (CRLF + body);
  }

  lemma BlankLineMissed(body: string, name: string)
    requires name != "" && name[0] != '\r'
    ensures ExtractHeader(CRLF + body, name) == ExtractHeader(body, name)
  {
    assert CRLF + body == "\r" + "\n" + body;
    LineThen("\r", body, name);
  }

  /** Nothing to trim. */
  predicate Clean(v: string) {
    v == "" || (v[0] != ' ' && v[0] != '\t' && v[0] != '\r' && v[|v| - 1] != '\r')
  }

  lemma TrimmedIff(v: string)
    ensures Trimmed(v) == v <==> Clean(v)
    ensures Clean(Trimmed(v)) && (v != "" && DropLead(v) == "" ==> IsBlank(v[0]))
  {
    DropTrailPrefix(DropLead(v));
    if v != "" && IsBlank(v[0]) {
      assert |DropLead(v)| < |v|;
    }
  }

  /** Trimming takes off spaces, tabs and carriage returns in front, and carriage returns behind; nothing is
      left exactly if there is nothing else. */
  lemma TrimmedParts(v: string) returns (lead: string, trail: string)
    ensures v == lead + Trimmed(v) + trail && Clean(Trimmed(v))
    ensures forall k :: 0 <= k < |lead| ==> lead[k] == ' ' || lead[k] == '\t' || lead[k] == '\r'
    ensures forall k :: 0 <= k < |trail| ==> trail[k] == '\r'
    ensures DropLead(v) == "" <==> forall k :: 0 <= k < |v| ==> v[k] == ' ' || v[k] == '\t' || v[k] == '\r'
  {
    lead := LeadPart(v);
    trail := TrailPart(DropLead(v));
    TrimmedIff(v);
    assert v == lead + (Trimmed(v) + trail) == lead + Trimmed(v) + trail;
  }

  lemma {:induction false} LeadPart(v: string) returns (lead: string)
    ensures v == lead + DropLead(v)
    ensures forall k :: 0 <= k < |lead| ==> lead[k] == ' ' || lead[k] == '\t' || lead[k] == '\r'
    ensures DropLead(v) == "" <==> forall k :: 0 <= k < |v| ==> v[k] == ' ' || v[k] == '\t' || v[k] == '\r'
  {
    if v == "" || !IsBlank(v[0]) {
      lead := "";
    } else {
      var rest := LeadPart(v[1..]);
      lead := [v[0]] + rest;
      assert v == [v[0]] + v[1..];
    }
  }

  lemma {:induction false} TrailPart(v: string) returns (trail: string)
    ensures v == DropTrail(v) + trail && forall k :: 0 <= k < |trail| ==> trail[k] == '\r'
  {
    if v == "" || v[|v| - 1] != '\r' {
      trail := "";
    } else {
      var rest := TrailPart(v[..|v| - 1]);
      trail := rest + ['\r'];
      assert v == v[..|v| - 1] + ['\r'];
    }
  }

  lemma {:induction false} DropTrailPrefix(s: string)
    ensures DropTrail(s) <= s
    ensures s != "" && s[0] != '\r' ==> DropTrail(s) != ""
  {
    if s != "" && s[|s| - 1] == '\r' { DropTrailPrefix(s[..|s| - 1]); }
  }

  /** Whatever is extracted is trimmed. */
  lemma {:induction false} ExtractedIsClean(message: string, name: string)
    ensures Clean(ExtractHeader(message, name))
    decreases |message|
  {
    if message == "" {
    } else {
      var line := FirstLine(message);
      if ValueOf(line.0, name).None? {
        ExtractedIsClean(line.1, name);
      } else {
        var colon := IndexOf(line.0, ':').value;
        TrimmedIff(line.0[colon + 1..]);
      }
    }
  }

  const NAMES: seq<string> := ["Via", "From", "To", "Call-ID", "CSeq", "Content-Type", "Content-Length"]

  lemma NamesDiffer(k: nat, j: nat)
    requires k < |NAMES| && j < |NAMES| && k != j
    ensures Differ(NAMES[k], NAMES[j])
  {
    if k < 3 || j < 3 {
      assert NAMES[k][0] != NAMES[j][0];
    } else if k < 5 || j < 5 {
      assert NAMES[k][1] != NAMES[j][1];
    } else {
      assert NAMES[k][8] != NAMES[j][8];
    }
  }

  /** The place of the k-th of n response headers in the list of names. */
  function Slot(n: nat, k: nat): nat {
    if n == 6 && k == 5 then 6 else k
  }

  /** The headers of a response, with or without a body. */
  ghost predicate ResponseNames(hs: seq<Header>) {
    (|hs| == 6 || |hs| == 7) && forall k :: 0 <= k < |hs| ==> hs[k].name == NAMES[Slot(|hs|, k)]
  }

  predicate PlainName(name: string) {
    '\n' !in name && ':' !in name && name != "" && name[0] != '\r' && name[0] != 'S'
  }

  lemma NamesArePlain(k: nat)
    requires k < |NAMES|
    ensures PlainName(NAMES[k])
  {
  }

  lemma NamesAreFit(hs: seq<Header>)
    requires ResponseNames(hs) && forall k :: 0 <= k < |hs| ==> OneLine(hs[k].value)
    ensures WellFormed(hs) && forall k :: 0 <= k < |hs| ==> PlainName(hs[k].name)
    ensures forall k, j :: 0 <= k < |hs| && 0 <= j < |hs| && j != k ==> Differ(hs[k].name, hs[j].name)
  {
    forall k | 0 <= k < |hs| ensures PlainName(hs[k].name) {
      NamesArePlain(Slot(|hs|, k));
    }
    forall k, j | 0 <= k < |hs| && 0 <= j < |hs| && j != k ensures Differ(hs[k].name, hs[j].name) {
      NamesDiffer(Slot(|hs|, k), Slot(|hs|, j));
    }
  }

  /** There is nothing to trim and, if the value is empty, nothing in the body that would be taken for it. */
  predicate Survives(v: string, name: string, body: string) {
    Clean(v) && (v == "" ==> ExtractHeader(body, name) == "")
  }

  /** Round trip of headers: in a response, a header reads back as the value it was given exactly if that
      value survives. */
  lemma HeaderRoundTripIff(statusLine: string, hs: seq<Header>, body: string, k: nat)
    requires ResponseNames(hs) && k < |hs| && (forall j :: 0 <= j < |hs| ==> OneLine(hs[j].value))
    requires OneLine(statusLine) && statusLine != "" && statusLine[0] == 'S'
    ensures ExtractHeader(Message(statusLine, hs, body), hs[k].name) == hs[k].value <==>
            Survives(hs[k].value, hs[k].name, body)
  {
    NamesAreFit(hs);
    assert Differ(hs[k].name, statusLine) by {
      assert hs[k].name[0] != statusLine[0];
    }
    HeaderReadBack(statusLine, hs, body, k);
    TrimmedIff(hs[k].value);
    ExtractedIsClean(body, hs[k].name);
  }

  lemma {:induction false} NoCharInNumber(n: int, c: char)
    requires !IsDigit(c) && c != '-'
    ensures c !in IntText(n)
  {
  }

  lemma ResponseHeaders(via: string, from: string, to: string, callId: string, cseq: int, verb: string,
                        toTag: string, length: Option<nat>)
    requires OneLine(via) && OneLine(from) && OneLine(to) && OneLine(callId) && OneLine(verb) && OneLine(toTag)
    ensures var hs := ReplyHeaders(via, from, to, callId, cseq, verb, toTag, length);
            ResponseNames(hs) && forall j :: 0 <= j < |hs| ==> OneLine(hs[j].value)
  {
    NoCharInNumber(cseq, '\n');
  }

  /** The CSeq value of a response is always clean. */
  lemma CSeqIsClean(cseq: int, verb: string)
    requires verb != "" && verb[|verb| - 1] != '\r'
    ensures Clean(IntText(cseq) + " " + verb)
  {
    var s := IntText(cseq) + " " + verb;
    assert s[0] == IntText(cseq)[0] && s[|s| - 1] == verb[|verb| - 1];
  }

  /** The five headers come back: each exactly if it survives. */
  ghost predicate HeadersReadBackIff(r: string, body: string, via: string, from: string, to: string, callId: string,
                                     cseqText: string) {
    && (ExtractHeader(r, "Via") == via <==> Survives(via, "Via", body))
    && (ExtractHeader(r, "From") == from <==> Survives(from, "From", body))
    && (ExtractHeader(r, "To") == to <==> Survives(to, "To", body))
    && (ExtractHeader(r, "Call-ID") == callId <==> Survives(callId, "Call-ID", body))
    && (ExtractHeader(r, "CSeq") == cseqText <==> Survives(cseqText, "CSeq", body))
  }

  lemma ReplyReadBack(statusLine: string, via: string, from: string, to: string, callId: string, cseq: int,
                      verb: string, toTag: string, length: Option<nat>, body: string)
    requires OneLine(via) && OneLine(from) && OneLine(to) && OneLine(callId) && OneLine(verb) && OneLine(toTag)
    requires OneLine(statusLine) && statusLine != "" && statusLine[0] == 'S'
    ensures var hs := ReplyHeaders(via, from, to, callId, cseq, verb, toTag, length);
            HeadersReadBackIff(Message(statusLine, hs, body), body, via, from, TaggedTo(to, toTag), callId,
              IntText(cseq) + " " + verb)
  {
    var hs := ReplyHeaders(via, from, to, callId, cseq, verb, toTag, length);
    ResponseHeaders(via, from, to, callId, cseq, verb, toTag, length);
    HeaderRoundTripIff(statusLine, hs, body, 0);
    HeaderRoundTripIff(statusLine, hs, body, 1);
    HeaderRoundTripIff(statusLine, hs, body, 2);
    HeaderRoundTripIff(statusLine, hs, body, 3);
    HeaderRoundTripIff(statusLine, hs, body, 4);
  }

  /** Round trip of a response without a body, for all header values that are one line each: no body
      supplies nothing, so a header comes back exactly if it is clean. */
  lemma ResponseReadBack(statusLine: string, via: string, from: string, to: string, callId: string, cseq: int,
                         verb: string, toTag: string)
    requires OneLine(via) && OneLine(from) && OneLine(to) && OneLine(callId) && OneLine(verb) && OneLine(toTag)
    requires OneLine(statusLine) && statusLine != "" && statusLine[0] == 'S'
    ensures HeadersReadBackIff(Response(statusLine, via, from, to, callId, cseq, verb, toTag),
                               "", via, from, TaggedTo(to, toTag), callId, IntText(cseq) + " " + verb)
  {
    ReplyReadBack(statusLine, via, from, to, callId, cseq, verb, toTag, None, "");
  }

  /** Round trip of a response with a body, from which an empty header may be filled. */
  lemma SdpResponseReadBack(statusLine: string, via: string, from: string, to: string, callId: string, cseq: int,
                            toTag: string, sdp: string)
    requires OneLine(via) && OneLine(from) && OneLine(to) && OneLine(callId) && OneLine(toTag)
    requires OneLine(statusLine) && statusLine != "" && statusLine[0] == 'S'
    ensures HeadersReadBackIff(ResponseWithSdp(statusLine, via, from, to, callId, cseq, toTag, sdp),
                               sdp, via, from, TaggedTo(to, toTag), callId, IntText(cseq) + " " + "INVITE")
  {
    ReplyReadBack(statusLine, via, from, to, callId, cseq, "INVITE", toTag, Some(|sdp|), sdp);
  }

  /* ---- what a caller gets back ---- */

  lemma {:induction false} LeadIsPart(s: string)
    ensures forall c :: c in DropLead(s) ==> c in s
  {
    if s == "" {
    } else {
      LeadIsPart(s[1..]);
    }
  }

  lemma {:induction false} ExtractedIsOneLine(message: string, name: string)
    ensures OneLine(ExtractHeader(message, name))
    decreases |message|
  {
    if message == "" {
    } else {
      var line := FirstLine(message);
      if ValueOf(line.0, name).None? {
        ExtractedIsOneLine(line.1, name);
      } else {
        var value := line.0[IndexOf(line.0, ':').value + 1..];
        LeadIsPart(value);
        DropTrailPrefix(DropLead(value));
      }
    }
  }

  lemma TaggedIsClean(to: string, toTag: string)
    requires Clean(to) && OneLine(to) && OneLine(toTag) && (toTag != "" ==> toTag[|toTag| - 1] != '\r')
    ensures Clean(TaggedTo(to, toTag)) && OneLine(TaggedTo(to, toTag))
  {
    var t := TaggedTo(to, toTag);
    if t != to {
      assert t[|t| - 1] == toTag[|toTag| - 1];
      assert t[0] == if to == "" then ';' else to[0];
    }
  }

  lemma CSeqReadBack(cseq: int, verb: string)
    requires -0x8000_0000 <= cseq < 0x8000_0000
    ensures Stoi(UpTo(IntText(cseq) + " " + verb, ' ')) == Some(cseq)
  {
    var n := IntText(cseq);
    NoCharInNumber(cseq, ' ');
    assert n + " " + verb == n + [' '] + verb;
    IndexIs(n, ' ', verb);
    assert (n + " " + verb)[..|n|] == n == n + "";
    NumberReadBack(cseq, "");
  }

  /** The reply carries the caller's own headers, the To tag added, and the given number. */
  ghost predicate Echoes(request: string, reply: string, cseq: int, toTag: string) {
    && ExtractHeader(reply, "Via") == ExtractHeader(request, "Via")
    && ExtractHeader(reply, "From") == ExtractHeader(request, "From")
    && ExtractHeader(reply, "To") == TaggedTo(ExtractHeader(request, "To"), toTag)
    && ExtractHeader(reply, "Call-ID") == ExtractHeader(request, "Call-ID")
    && CSeqNumber(reply) == Some(cseq)
  }

  lemma EchoOf(request: string, reply: string, cseq: int, verb: string, toTag: string)
    requires -0x8000_0000 <= cseq < 0x8000_0000 && verb != "" && verb[|verb| - 1] != '\r'
    requires OneLine(toTag) && (toTag != "" ==> toTag[|toTag| - 1] != '\r')
    requires HeadersReadBackIff(reply, "", ExtractHeader(request, "Via"), ExtractHeader(request, "From"),
                                TaggedTo(ExtractHeader(request, "To"), toTag), ExtractHeader(request, "Call-ID"),
                                IntText(cseq) + " " + verb)
    ensures Echoes(request, reply, cseq, toTag)
  {
    ExtractedIsClean(request, "Via");
    ExtractedIsClean(request, "From");
    ExtractedIsClean(request, "To");
    ExtractedIsOneLine(request, "To");
    ExtractedIsClean(request, "Call-ID");
    TaggedIsClean(ExtractHeader(request, "To"), toTag);
    CSeqIsClean(cseq, verb);
    CSeqReadBack(cseq, verb);
  }

  lemma ExtractedAreOneLine(request: string)
    ensures OneLine(ExtractHeader(request, "Via")) && OneLine(ExtractHeader(request, "From"))
    ensures OneLine(ExtractHeader(request, "To")) && OneLine(ExtractHeader(request, "Call-ID"))
  {
    ExtractedIsOneLine(request, "Via");
    ExtractedIsOneLine(request, "From");
    ExtractedIsOneLine(request, "To");
    ExtractedIsOneLine(request, "Call-ID");
  }

  /** End to end, for any request whatever: the response built from its headers gives them back to the
      caller, and the number. */
  lemma RequestEchoed(request: string, statusLine: string, cseq: int, verb: string, toTag: string)
    requires OneLine(statusLine) && statusLine != "" && statusLine[0] == 'S'
    requires OneLine(verb) && verb != "" && verb[|verb| - 1] != '\r' && -0x8000_0000 <= cseq < 0x8000_0000
    requires OneLine(toTag) && (toTag != "" ==> toTag[|toTag| - 1] != '\r')
    ensures var reply := Response(statusLine, ExtractHeader(request, "Via"), ExtractHeader(request, "From"),
                                  ExtractHeader(request, "To"), ExtractHeader(request, "Call-ID"), cseq, verb, toTag);
            Echoes(request, reply, cseq, toTag)
  {
    var via, from := ExtractHeader(request, "Via"), ExtractHeader(request, "From");
    var to, callId := ExtractHeader(request, "To"), ExtractHeader(request, "Call-ID");
    ExtractedAreOneLine(request);
    ResponseReadBack(statusLine, via, from, to, callId, cseq, verb, toTag);
    EchoOf(request, Response(statusLine, via, from, to, callId, cseq, verb, toTag), cseq, verb, toTag);
  }

  /** The number printed as Content-Length is the length of the body that is extracted, which is the body
      that was given. */
  lemma ContentLengthReadBack(statusLine: string, via: string, from: string, to: string, callId: string, cseq: int,
                              toTag: string, sdp: string)
    requires OneLine(via) && OneLine(from) && OneLine(to) && OneLine(callId) && OneLine(toTag)
    requires OneLine(statusLine) && statusLine != "" && statusLine[0] == 'S'
    ensures var r := ResponseWithSdp(statusLine, via, from, to, callId, cseq, toTag, sdp);
            ExtractMessageBody(r) == sdp && Strtol(ExtractHeader(r, "Content-Length")) == Some(|sdp|)
  {
    var hs := ReplyHeaders(via, from, to, callId, cseq, "INVITE", toTag, Some(|sdp|));
    ResponseHeaders(via, from, to, callId, cseq, "INVITE", toTag, Some(|sdp|));
    NamesAreFit(hs);
    BodyReadBack(statusLine, hs, sdp);
    assert hs[6] == Header("Content-Length", NatText(|sdp|));
    LengthReadBack(statusLine, hs, sdp);
  }

  lemma DigitsAreClean(n: nat)
    ensures NatText(n) != "" && Clean(NatText(n)) && NatText(n) + "" == NatText(n)
  {
  }

  lemma LengthReadBack(statusLine: string, hs: seq<Header>, sdp: string)
    requires ResponseNames(hs) && |hs| == 7 && (forall j :: 0 <= j < |hs| ==> OneLine(hs[j].value))
    requires OneLine(statusLine) && statusLine != "" && statusLine[0] == 'S'
    requires hs[6] == Header("Content-Length", NatText(|sdp|))
    ensures Strtol(ExtractHeader(Message(statusLine, hs, sdp), "Content-Length")) == Some(|sdp|)
  {
    DigitsAreClean(|sdp|);
    HeaderRoundTripIff(statusLine, hs, sdp, 6);
    NatReadBack(|sdp|, "");
  }

  /* ---- the body ---- */

  /** The header part ends at k: there, and not before, is a blank line. */
  ghost predicate EndsAt(s: string, k: nat) {
    MatchAt(s, BLANK_LINE, k) && forall j :: 0 <= j < k ==> !MatchAt(s, BLANK_LINE, j)
  }

  lemma MatchShift(a: string, b: string, pat: string, j: nat)
    ensures MatchAt(a + b, pat, |a| + j) <==> MatchAt(b, pat, j)
  {
    if j + |pat| <= |b| {
      assert (a + b)[|a| + j..|a| + j + |pat|] == b[j..j + |pat|];
    }
  }

  lemma NoBlankLineIn(line: string, rest: string, j: nat)
    requires OneLine(line) && j < |line| + 2 && (rest == "" || rest[0] != '\r' || j != |line|)
    ensures !MatchAt(line + CRLF + rest, BLANK_LINE, j)
  {
    var s := line + CRLF + rest;
    assert BLANK_LINE[0] == '\r' && BLANK_LINE[1] == '\n' && BLANK_LINE[2] == '\r';
    if j < |line| {
      assert s[j + 1] != '\n';
      MatchChar(s, BLANK_LINE, j, 1);
    } else if j == |line| {
      if rest != "" {
        assert s[j + 2] == rest[0];
        MatchChar(s, BLANK_LINE, j, 2);
      }
    } else {
      assert s[j] == '\n';
      MatchChar(s, BLANK_LINE, j, 0);
    }
  }

  /** A line in front moves the end of the headers. */
  lemma OneLineMore(line: string, rest: string, k: nat)
    requires OneLine(line) && EndsAt(rest, k) && rest != "" && rest[0] != '\r'
    ensures EndsAt(line + CRLF + rest, |line| + 2 + k)
  {
    var a := line + CRLF;
    var s := a + rest;
    MatchShift(a, rest, BLANK_LINE, k);
    forall j | 0 <= j < |a| + k ensures !MatchAt(s, BLANK_LINE, j) {
      if j < |a| {
        NoBlankLineIn(line, rest, j);
      } else {
        MatchShift(a, rest, BLANK_LINE, j - |a|);
      }
    }
  }

  lemma LastLine(line: string, body: string)
    requires OneLine(line)
    ensures EndsAt(line + CRLF + (CRLF + body), |line|)
  {
    var s := line + CRLF + (CRLF + body);
    assert s[|line|..|line| + 4] == BLANK_LINE;
    forall j | 0 <= j < |line| ensures !MatchAt(s, BLANK_LINE, j) {
      NoBlankLineIn(line, CRLF + body, j);
    }
  }

  lemma {:induction false} HeadersEnd(line: string, hs: seq<Header>, body: string) returns (k: nat)
    requires OneLine(line) && WellFormed(hs)
    ensures var s := line + CRLF + (HeaderBlock(hs) + CRLF + body);
            EndsAt(s, k) && k + 4 <= |s| && s[k + 4..] == body
    decreases |hs|
  {
    if hs == [] {
      assert HeaderBlock(hs) + CRLF + body == CRLF + body;
      LastLine(line, body);
      k := |line|;
    } else {
      var h := hs[0].name + ": " + hs[0].value;
      var rest := h + CRLF + (HeaderBlock(hs[1..]) + CRLF + body);
      assert HeaderBlock(hs) + CRLF + body == rest;
      var m := HeadersEnd(h, hs[1..], body);
      assert rest[0] == hs[0].name[0];
      OneLineMore(line, rest, m);
      k := |line| + 2 + m;
      assert (line + CRLF + rest)[k + 4..] == rest[m + 4..];
    }
  }

  /** The body comes back, whatever it contains. */
  lemma BodyReadBack(statusLine: string, hs: seq<Header>, body: string)
    requires OneLine(statusLine) && WellFormed(hs)
    ensures Find(Message(statusLine, hs, body), BLANK_LINE, 0).Some? &&
            ExtractMessageBody(Message(statusLine, hs, body)) == body
  {
    var k := HeadersEnd(statusLine, hs, body);
    var s := statusLine + CRLF + (HeaderBlock(hs) + CRLF + body);
    assert Message(statusLine, hs, body) == s;
    FindIs(s, BLANK_LINE, 0, k);
  }

  /* ---- the To tag ---- */

  /** The tag is added exactly if there is one to add and no tag yet, and it reads back exactly if it has
      no semicolon. */
  lemma TagReadBackIff(to: string, toTag: string)
    ensures TaggedTo(to, toTag) != to <==> toTag != "" && Find(to, "tag=", 0) == None
    ensures TaggedTo(to, toTag) != to ==> TaggedTo(to, toTag) == to + ";tag=" + toTag
    ensures TaggedTo(to, toTag) != to ==> (ExtractFromTag(TaggedTo(to, toTag)) == toTag <==> ';' !in toTag)
    ensures TaggedTo(TaggedTo(to, toTag), toTag) == TaggedTo(to, toTag)
  {
    if toTag != "" && Find(to, "tag=", 0) == None {
      TagFound(to, toTag);
      TagCut(to + ";tag=", toTag);
    }
  }

  /** Everything up to the first semicolon; all of it exactly if there is none. */
  lemma TagCut(front: string, toTag: string)
    ensures var s := front + toTag;
            var tag := match Find(s, ";", |front|) case Some(end) => s[|front|..end] case None => s[|front|..];
            tag == toTag <==> ';' !in toTag
  {
    if ';' in toTag {
      SemicolonFound(front, toTag);
    } else {
      NoSemicolon(front, toTag);
      assert (front + toTag)[|front|..] == toTag;
    }
  }

  lemma SemicolonFound(front: string, toTag: string)
    requires ';' in toTag
    ensures var e := Find(front + toTag, ";", |front|);
            e.Some? && e.value < |front| + |toTag|
  {
    hide Find;
    var s := front + toTag;
    var i :| 0 <= i < |toTag| && toTag[i] == ';';
    var at := |front| + i;
    assert s[at] == ';';
    assert s[at..at + 1] == [s[at]];
    assert MatchAt(s, ";", at);
  }

  lemma NoSemicolon(front: string, toTag: string)
    requires ';' !in toTag
    ensures Find(front + toTag, ";", |front|) == None
  {
    var s := front + toTag;
    var e := Find(s, ";", |front|);
    if e.Some? {
      MatchChar(s, ";", e.value, 0);
      assert false;
    }
  }

  lemma TagFound(to: string, toTag: string)
    requires Find(to, "tag=", 0) == None
    ensures Find(to + ";tag=" + toTag, "tag=", 0) == Some(|to| + 1)
  {
    var s := to + ";tag=" + toTag;
    assert s[|to| + 1..|to| + 5] == "tag=";
    forall j | 0 <= j < |to| + 1 ensures !MatchAt(s, "tag=", j) {
      if j + 4 <= |to| {
        assert s[j..j + 4] == to[j..j + 4];
        assert !MatchAt(to, "tag=", j);
      } else {
        assert s[|to|] == ';';
        MatchChar(s, "tag=", j, |to| - j);
      }
    }
    FindIs(s, "tag=", 0, |to| + 1);
  }
}
