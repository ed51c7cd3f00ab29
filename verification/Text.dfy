/** The string operations that the SIP code is made of. */
module Text {
  import opened Pcm

  /** The pattern stands at position i. */
  predicate MatchAt(s: string, pat: string, i: nat) {
    i + |pat| <= |s| && s[i..i + |pat|] == pat
  }

  /** std::string::find: the first position from `from` on. */
  function Find(s: string, pat: string, from: nat): (r: Option<nat>)
    ensures r.Some? ==>
              from <= r.value && MatchAt(s, pat, r.value) && forall j :: from <= j < r.value ==> !MatchAt(s, pat, j)
    ensures r.None? ==> forall j :: from <= j <= |s| ==> !MatchAt(s, pat, j)
    decreases |s| - from
  {
    if from > |s| then None
    else if MatchAt(s, pat, from) then Some(from)
    else Find(s, pat, from + 1)
  }

  lemma {:induction false} FindIs(s: string, pat: string, from: nat, k: nat)
    requires from <= k && MatchAt(s, pat, k) && forall j :: from <= j < k ==> !MatchAt(s, pat, j)
    ensures Find(s, pat, from) == Some(k)
    decreases k - from
  {
    if from == k {
    } else {
      FindIs(s, pat, from + 1, k);
    }
  }

  /** A pattern cannot stand where one of its characters does not occur. */
  lemma NoMatchWithout(s: string, pat: string, i: nat, end: nat)
    requires i < |pat| && end <= |s| && pat[i] !in s[..end]
    ensures forall j :: 0 <= j && j + i < end ==> !MatchAt(s, pat, j)
  {
    forall j | 0 <= j && j + i < end ensures !MatchAt(s, pat, j) {
      MatchChar(s, pat, j, i);
      assert s[j + i] == s[..end][j + i];
    }
  }

  lemma MatchChar(s: string, pat: string, j: nat, i: nat)
    requires i < |pat| && j + i < |s|
    ensures MatchAt(s, pat, j) ==> s[j + i] == pat[i]
  {
    if MatchAt(s, pat, j) {
      assert s[j..j + |pat|][i] == s[j + i];
    }
  }

  /** A pattern behind a text that lacks one of its characters, which it has only once up to there. */
  lemma FirstMatch(before: string, pat: string, more: string, i: nat)
    requires i < |pat| && pat[i] !in before && pat[i] !in pat[..i]
    ensures Find(before + pat + more, pat, 0) == Some(|before|)
  {
    var s, k := before + pat + more, |before|;
    assert s[..k + i] == before + pat[..i];
    assert s[k..k + |pat|] == pat;
    NoMatchWithout(s, pat, i, k + i);
    FindIs(s, pat, 0, k);
  }

  /* ---- lines ---- */

  const CRLF: string := ['\r', '\n']

  function Lines(ls: seq<string>): string {
    if ls == [] then "" else ls[0] + CRLF + Lines(ls[1..])
  }

  lemma {:induction false} LinesAppend(a: seq<string>, b: seq<string>)
    ensures Lines(a + b) == Lines(a) + Lines(b)
  {
    if a == [] {
      assert a + b == b;
    } else {
      assert (a + b)[1..] == a[1..] + b;
      LinesAppend(a[1..], b);
    }
  }

  lemma {:induction false} LinesWithout(ls: seq<string>, ch: char)
    requires ch != '\r' && ch != '\n' && forall k :: 0 <= k < |ls| ==> ch !in ls[k]
    ensures ch !in Lines(ls)
  {
    if ls == [] {
    } else {
      LinesWithout(ls[1..], ch);
    }
  }

  /** The first line as std::getline cuts it, and what follows. */
  function FirstLine(s: string): (r: (string, string))
    ensures |r.1| < |s| || s == ""
    ensures '\n' !in r.0 && (s == r.0 + "\n" + r.1 || (s == r.0 && r.1 == ""))
  {
    if s == "" then ("", "")
    else if s[0] == '\n' then ("", s[1..])
    else
      var r := FirstLine(s[1..]);
      ([s[0]] + r.0, r.1)
  }

  lemma {:induction false} FirstLineIs(line: string, rest: string)
    requires '\n' !in line
    ensures FirstLine(line + "\n" + rest) == (line, rest)
  {
    var s := line + "\n" + rest;
    if line == "" {
      assert s[1..] == rest;
    } else {
      assert s[0] == line[0] && s[1..] == line[1..] + "\n" + rest;
      FirstLineIs(line[1..], rest);
      assert [line[0]] + line[1..] == line;
    }
  }

  /* ---- blanks and words ---- */

  predicate IsBlank(c: char) {
    c == ' ' || c == '\t' || c == '\r'
  }

  /** find_first_not_of(" \t\r"). */
  function DropLead(s: string): (r: string)
    ensures |r| <= |s|
    ensures r != "" ==> !IsBlank(r[0])
  {
    if s == "" || !IsBlank(s[0]) then s else DropLead(s[1..])
  }

  /** find_last_not_of("\r"). */
  function DropTrail(s: string): (r: string)
    ensures |r| <= |s|
    ensures r != "" ==> r[|r| - 1] != '\r'
  {
    if s == "" || s[|s| - 1] != '\r' then s else DropTrail(s[..|s| - 1])
  }

  predicate IsSpace(c: char) {
    c == ' ' || '\t' <= c <= '\r'
  }

  function SkipSpace(s: string): (r: string)
    ensures |r| <= |s| && (r != "" ==> !IsSpace(r[0]))
  {
    if s == "" || !IsSpace(s[0]) then s else SkipSpace(s[1..])
  }

  /** The characters up to the first space, and what follows. */
  function Word(s: string): (r: (string, string))
    ensures s == r.0 + r.1
    ensures s != "" && !IsSpace(s[0]) ==> r.0 != ""
  {
    if s == "" || IsSpace(s[0]) then ("", s)
    else
      var r := Word(s[1..]);
      ([s[0]] + r.0, r.1)
  }

  /** The words that repeated extraction from a stream returns. */
  function Words(s: string): seq<string>
    decreases |s|
  {
    var t := SkipSpace(s);
    if t == "" then [] else
      var w := Word(t);
      assert |t| == |w.0| + |w.1|;
      [w.0] + Words(w.1)
  }

  lemma {:induction false} WordIs(w: string, rest: string)
    requires (forall k :: 0 <= k < |w| ==> !IsSpace(w[k])) && (rest != "" ==> IsSpace(rest[0]))
    ensures Word(w + rest) == (w, rest)
  {
    if w == "" {
      assert w + rest == rest;
    } else {
      assert (w + rest)[1..] == w[1..] + rest;
      WordIs(w[1..], rest);
      assert [w[0]] + w[1..] == w;
    }
  }

  /** A word ends at any white space, and white space in front is skipped. */
  lemma WordThen(w: string, c: char, rest: string)
    requires w != "" && forall k :: 0 <= k < |w| ==> w[k] != ' ' && !('\t' <= w[k] <= '\r')
    requires c == ' ' || '\t' <= c <= '\r'
    ensures Words(w + [c] + rest) == [w] + Words(rest)
    ensures Words([c] + rest) == Words(rest)
  {
    WordIs(w, [c] + rest);
    assert w + [c] + rest == w + ([c] + rest);
    assert SkipSpace(w + [c] + rest) == w + [c] + rest;
    assert ([c] + rest)[1..] == rest;
    assert SkipSpace([c] + rest) == SkipSpace(rest);
  }

  /** One word, a space, and more. */
  lemma WordsStep(w: string, rest: string)
    requires w != "" && forall k :: 0 <= k < |w| ==> w[k] != ' ' && !('\t' <= w[k] <= '\r')
    ensures Words(w + " " + rest) == [w] + Words(rest)
    ensures Words(w) == [w]
  {
    WordThen(w, ' ', rest);
    WordIs(w, "");
    assert w + "" == w;
  }

  /* ---- numbers ---- */

  predicate IsDigit(c: char) {
    '0' <= c <= '9'
  }

  function DigitChar(d: nat): (c: char)
    requires d < 10
    ensures IsDigit(c)
  {
    '0' + d as char
  }

  function NatText(n: nat): (r: string)
    ensures r != "" && forall k :: 0 <= k < |r| ==> IsDigit(r[k])
  {
    if n < 10 then [DigitChar(n)] else NatText(n / 10) + [DigitChar(n % 10)]
  }

  /** std::to_string. */
  function IntText(n: int): string {
    if n < 0 then "-" + NatText(-n) else NatText(n)
  }

  /** The digits at the front, as a number on top of `acc`. */
  function DigitsFrom(s: string, acc: nat): nat
    decreases |s|
  {
    if s == "" || !IsDigit(s[0]) then acc else DigitsFrom(s[1..], 10 * acc + (s[0] as nat - '0' as nat))
  }

  /** strtol in base ten, without the limits of the target type: spaces, a sign, digits. */
  function Strtol(s: string): Option<int> {
    var t := SkipSpace(s);
    var negative := t != "" && t[0] == '-';
    var u := if t != "" && (t[0] == '-' || t[0] == '+') then t[1..] else t;
    if u == "" || !IsDigit(u[0]) then None
    else
      var d: int := DigitsFrom(u, 0);
      Some(if negative then -d else d)
  }

  /** atoi. */
  function Atoi(s: string): int {
    match Strtol(s)
    case Some(n) => n
    case None => 0
  }

  /** std::stoi, which throws without digits and outside the range of int. */
  function Stoi(s: string): Option<int> {
    match Strtol(s)
    case Some(n) => if -0x8000_0000 <= n < 0x8000_0000 then Some(n) else None
    case None => None
  }

  lemma {:induction false} DigitsThen(n: nat, rest: string)
    ensures DigitsFrom(NatText(n) + rest, 0) == DigitsFrom(rest, n)
    decreases n
  {
    if n < 10 {
      assert (NatText(n) + rest)[1..] == rest;
    } else {
      var last := [DigitChar(n % 10)];
      assert NatText(n) + rest == NatText(n / 10) + (last + rest);
      DigitsThen(n / 10, last + rest);
      assert (last + rest)[1..] == rest;
    }
  }

  lemma NatReadBack(n: nat, rest: string)
    requires rest != "" ==> !IsDigit(rest[0])
    ensures Strtol(NatText(n) + rest) == Some(n)
  {
    DigitsThen(n, rest);
    DigitsOnly(NatText(n) + rest);
  }

  /** A text that starts with a digit has neither space nor sign. */
  lemma DigitsOnly(s: string)
    requires s != "" && IsDigit(s[0])
    ensures Strtol(s) == Some(DigitsFrom(s, 0) as int)
  {
  }

  lemma MinusDigits(s: string)
    requires s != "" && IsDigit(s[0])
    ensures Strtol("-" + s) == Some(-(DigitsFrom(s, 0) as int))
  {
    var t := "-" + s;
    assert t[1..] == s && t[0] == '-';
    assert SkipSpace(t) == t;
  }

  /** Printing and reading a number are inverse, whatever follows it. */
  lemma NumberReadBack(n: int, rest: string)
    requires rest != "" ==> !IsDigit(rest[0])
    ensures Strtol(IntText(n) + rest) == Some(n)
  {
    if n < 0 {
      assert IntText(n) + rest == "-" + (NatText(-n) + rest);
      DigitsThen(-n, rest);
      MinusDigits(NatText(-n) + rest);
    } else {
      NatReadBack(n, rest);
    }
  }

  /** The decimal notation: digit by digit, without leading zeros, a minus in front of negative numbers. */
  lemma DecimalText(n: nat, d: nat)
    requires n > 0 && d < 10
    ensures IntText(d) == ["0123456789"[d]]
    ensures IntText(10 * n + d) == IntText(n) + ["0123456789"[d]]
    ensures IntText(0 - n) == "-" + IntText(n)
  {
    assert (10 * n + d) / 10 == n && (10 * n + d) % 10 == d;
    assert DigitChar(d) == "0123456789"[d];
  }

  lemma {:induction false} SpaceSkipped(space: string, s: string)
    requires forall k :: 0 <= k < |space| ==> space[k] == ' ' || '\t' <= space[k] <= '\r'
    ensures SkipSpace(space + s) == SkipSpace(s)
  {
    if space == "" {
      assert space + s == s;
    } else {
      assert (space + s)[1..] == space[1..] + s;
      SpaceSkipped(space[1..], s);
    }
  }

  /** White space and one sign may stand in front of a number, and anything but a digit behind it. */
  lemma NumberRead(space: string, sign: string, n: nat, rest: string)
    requires forall k :: 0 <= k < |space| ==> space[k] == ' ' || '\t' <= space[k] <= '\r'
    requires (sign == "" || sign == "+" || sign == "-") && (rest != "" ==> !('0' <= rest[0] <= '9'))
    ensures Strtol(space + (sign + (IntText(n) + rest))) == Some(if sign == "-" then 0 - n else n)
  {
    var t := IntText(n) + rest;
    SpaceSkipped(space, sign + t);
    DigitsThen(n, rest);
    SignedDigits(sign, t);
  }

  lemma SignedDigits(sign: string, t: string)
    requires (sign == "" || sign == "+" || sign == "-") && t != "" && '0' <= t[0] <= '9'
    ensures SkipSpace(sign + t) == sign + t
    ensures Strtol(sign + t) == Some(if sign == "-" then 0 - DigitsFrom(t, 0) else DigitsFrom(t, 0))
  {
    if sign == "" {
      assert sign + t == t;
    } else {
      assert (sign + t)[1..] == t;
    }
  }

  /** There is no number if no digit comes next. */
  lemma NoNumber(space: string, sign: string, rest: string)
    requires forall k :: 0 <= k < |space| ==> space[k] == ' ' || '\t' <= space[k] <= '\r'
    requires (sign == "+" || sign == "-") && (rest != "" ==> !('0' <= rest[0] <= '9'))
    ensures Strtol(space + (sign + rest)) == None
    ensures rest == "" || !(rest[0] == ' ' || rest[0] == '+' || rest[0] == '-' || '\t' <= rest[0] <= '\r') ==>
            Strtol(space + rest) == None
  {
    SpaceSkipped(space, sign + rest);
    SpaceSkipped(space, rest);
    assert (sign + rest)[1..] == rest;
    assert SkipSpace(sign + rest) == sign + rest;
  }

  /** A number that stands in a text, up to a character that is no digit, reads back. */
  lemma NumberUpTo(s: string, from: nat, n: nat, stop: string)
    requires |stop| == 1 && !IsDigit(stop[0])
    requires MatchAt(s, NatText(n), from) && MatchAt(s, stop, from + |NatText(n)|)
    ensures var end := from + |NatText(n)|;
            Find(s, stop, from) == Some(end) && Strtol(s[from..end]) == Some(n)
  {
    var end := from + |NatText(n)|;
    forall j | from <= j < end ensures !MatchAt(s, stop, j) {
      assert s[j] == s[from..end][j - from];
      MatchChar(s, stop, j, 0);
    }
    FindIs(s, stop, from, end);
    NatReadBack(n, "");
    assert NatText(n) + "" == NatText(n);
  }
}
