/**
 The lenient syslog parser: priority, then RFC 5424, then RFC 3164, then verbatim.
 The regular expressions are deterministic enough to be read left to right; each
 function below is one of their pieces.
 */
module Syslog {
  import opened Basics
  import opened Text

  datatype Message = Message(facility: Option<nat>, severity: nat, app: Option<string>, text: string)

  /** The classes \w and \d of a pattern, and the value a digit has as a number. */
  datatype Classes = Classes(word: char -> bool, digit: char -> bool, value: char -> nat)

  /** \w on ASCII. */
  predicate IsAsciiWord(c: char) {
    'A' <= c <= 'Z' || 'a' <= c <= 'z' || IsDigit(c) || c == '_'
  }

  /** They look like that on ASCII; beyond it they may hold anything that is not whitespace. */
  ghost predicate Proper(cls: Classes) {
    && (forall c :: cls.digit(c) ==> cls.word(c) && cls.value(c) <= 9)
    && (forall c :: cls.word(c) ==> !IsSpace(c))
    && (forall c :: c as int < 128 ==> (cls.word(c) <==> IsAsciiWord(c)))
    && (forall c :: c as int < 128 ==> (cls.digit(c) <==> IsDigit(c)))
    && (forall c :: IsDigit(c) ==> cls.value(c) == (c - '0') as nat)
  }

  const ASCII := Classes(IsAsciiWord, IsDigit, c => if IsDigit(c) then (c - '0') as nat else 0)

  /** ASCII alone is such a pair of classes. */
  lemma AsciiIsProper()
    ensures Proper(ASCII)
  {
  }

  /** Ten digits are never read: a priority has at most three. */
  function NumberOf(cls: Classes, digits: string): nat {
    if digits == "" then 0
    else NumberOf(cls, digits[..|digits| - 1]) * 10
         + cls.value(digits[|digits| - 1])
  }

  function DigitRun(cls: Classes, s: string): (n: nat)
    ensures n <= |s| && forall i :: 0 <= i < n ==> cls.digit(s[i])
    ensures n < |s| ==> !cls.digit(s[n])
  {
    if s == "" || !cls.digit(s[0]) then 0
    else
      assert forall i :: 1 <= i < 1 + DigitRun(cls, s[1..]) ==> s[i] == s[1..][i - 1];
      1 + DigitRun(cls, s[1..])
  }

  /** ^<(\d{1,3})> : the number and what follows. */
  function MatchPri(cls: Classes, s: string): Option<(nat, string)> {
    if s == "" || s[0] != '<' then None
    else
      var n := DigitRun(cls, s[1..]);
      if 1 <= n <= 3 && n + 1 < |s| && s[n + 1] == '>' then Some((NumberOf(cls, s[1..n + 1]), s[n + 2..])) else None
  }

  /** (\S+) and a space. */
  function MatchField(s: string): (r: Option<(string, string)>)
    ensures r.Some? ==> |r.value.1| < |s|
  {
    var n := TokenLength(s);
    if n > 0 && n < |s| && s[n] == ' ' then Some((s[..n], s[n + 1..])) else None
  }

  function SkipSpace(s: string): string {
    if s != "" && s[0] == ' ' then s[1..] else s
  }

  /** The text after the first ']'. */
  function AfterBracket(s: string): Option<string> {
    if s == "" then None
    else if s[0] == ']' then Some(s[1..])
    else AfterBracket(s[1..])
  }

  /** (?:\[.*?\]|-) ?(.*) : structured data, then the message. */
  function MatchData(s: string): Option<string> {
    if s == "" then None
    else if s[0] == '-' then Some(SkipSpace(s[1..]))
    else if s[0] == '[' then
      var after := AfterBracket(s[1..]);
      if after.None? then None else Some(SkipSpace(after.value))
    else None
  }

  /** `1 TIMESTAMP HOST APP PROCID MSGID DATA MSG` : app name and message. */
  function Match5424(s: string): Option<(string, string)> {
    if !StartsWith(s, "1 ") then None
    else
      var ts := MatchField(s[2..]);
      if ts.None? then None else
      var host := MatchField(ts.value.1);
      if host.None? then None else
      var app := MatchField(host.value.1);
      if app.None? then None else
      var procid := MatchField(app.value.1);
      if procid.None? then None else
      var msgid := MatchField(procid.value.1);
      if msgid.None? then None else
      var msg := MatchData(msgid.value.1);
      if msg.None? then None else Some((app.value.0, msg.value))
  }

  // ---- RFC 3164 ----

  predicate IsUpper(c: char) { 'A' <= c <= 'Z' }

  predicate IsLower(c: char) { 'a' <= c <= 'z' }

  /** What a host or a tag may hold besides \w. */
  const HOST_EXTRA := ".:-"
  const TAG_EXTRA := "./-"

  predicate IsIn(cls: Classes, extra: string, c: char) {
    cls.word(c) || c in extra
  }

  predicate AllIn(cls: Classes, extra: string, s: string) {
    forall i :: 0 <= i < |s| ==> IsIn(cls, extra, s[i])
  }

  predicate IsHost(cls: Classes, s: string) {
    s != "" && AllIn(cls, HOST_EXTRA, s)
  }

  /** Such a word, and perhaps a number in brackets. */
  predicate IsTag(cls: Classes, s: string) {
    exists n: nat :: n <= |s| && TagEndsAt(cls, s, n)
  }

  predicate TagEndsAt(cls: Classes, s: string, n: nat) {
    && 0 < n <= |s| && AllIn(cls, TAG_EXTRA, s[..n])
    && (n < |s| ==>
          && n + 3 <= |s| && s[n] == '[' && s[|s| - 1] == ']'
          && forall i :: n < i < |s| - 1 ==> cls.digit(s[i]))
  }

  /** Length of the leading run of such characters. */
  function RunOf(cls: Classes, extra: string, s: string): (n: nat)
    ensures n <= |s| && AllIn(cls, extra, s[..n])
    ensures n < |s| ==> !IsIn(cls, extra, s[n])
  {
    if s == "" || !IsIn(cls, extra, s[0]) then 0
    else
      assert s[..1 + RunOf(cls, extra, s[1..])] == [s[0]] + s[1..][..RunOf(cls, extra, s[1..])];
      1 + RunOf(cls, extra, s[1..])
  }

  /** `Mmm dd hh:mm:ss ` */
  predicate HasStamp(cls: Classes, s: string) {
    && |s| >= 16
    && IsUpper(s[0]) && IsLower(s[1]) && IsLower(s[2]) && s[3] == ' '
    && (s[4] == ' ' || cls.digit(s[4])) && cls.digit(s[5]) && s[6] == ' '
    && cls.digit(s[7]) && cls.digit(s[8]) && s[9] == ':' && cls.digit(s[10]) && cls.digit(s[11]) && s[12] == ':'
    && cls.digit(s[13]) && cls.digit(s[14]) && s[15] == ' '
  }

  /** The tag, with or without a bracketed number, up to its colon; then the message. */
  function MatchTag(cls: Classes, s: string): Option<(string, string)> {
    var n := RunOf(cls, TAG_EXTRA, s);
    if n == 0 || n >= |s| then None
    else if s[n] == ':' then Some((s[..n], SkipSpace(s[n + 1..])))
    else if s[n] == '[' then
      var m := DigitRun(cls, s[n + 1..]);
      if m > 0 && n + m + 2 < |s| && s[n + m + 1] == ']' && s[n + m + 2] == ':' then
        Some((s[..n + m + 2], SkipSpace(s[n + m + 3..])))
      else None
    else None
  }

  /** A host and a space before the tag, if that works out; otherwise the tag alone. */
  function MatchHostTag(cls: Classes, s: string): Option<(string, string)> {
    var n := RunOf(cls, HOST_EXTRA, s);
    var withHost := if n > 0 && n < |s| && s[n] == ' ' then MatchTag(cls, s[n + 1..]) else None;
    if withHost.Some? then withHost else MatchTag(cls, s)
  }

  function Match3164(cls: Classes, s: string): Option<(string, string)> {
    var stamped := if HasStamp(cls, s) then MatchHostTag(cls, s[16..]) else None;
    if stamped.Some? then stamped else MatchHostTag(cls, s)
  }

  function Truncate(s: string, n: nat): string {
    if |s| <= n then s else s[..n]
  }

  function ParseBody(cls: Classes, facility: Option<nat>, severity: nat, rest: string): Message {
    var m := Match5424(rest);
    if m.Some? then
      Message(facility, severity, if m.value.0 == "-" then None else Some(Truncate(m.value.0, 100)), Strip(m.value.1))
    else
      var l := Match3164(cls, rest);
      if l.Some? then Message(facility, severity, Some(Truncate(l.value.0, 100)), Strip(l.value.1))
      else Message(facility, severity, None, rest)
  }

  function ParseSyslog(cls: Classes, raw: string): Message {
    var rest := Strip(raw);
    var pri := MatchPri(cls, rest);
    if pri.None? then ParseBody(cls, None, 6, rest)
    else if pri.value.0 <= 191 then ParseBody(cls, Some(pri.value.0 / 8), pri.value.0 % 8, pri.value.1)
    else ParseBody(cls, None, 6, pri.value.1)
  }

  /** For every datagram the severity indexes the eight names, and the facility is one of 24. */
  lemma SeverityAlwaysNamed(cls: Classes, raw: string)
    ensures 0 <= ParseSyslog(cls, raw).severity < 8
    ensures ParseSyslog(cls, raw).facility.Some? ==> ParseSyslog(cls, raw).facility.value < 24
  {
  }

  // ---- Printing per section 6 of RFC 5424 ----

  function DigitChar(k: nat): char
    requires k < 10
  {
    '0' + k as char
  }

  function Digits(n: nat): string {
    if n < 10 then [DigitChar(n)] else Digits(n / 10) + [DigitChar(n % 10)]
  }

  /** HEADER SP STRUCTURED-DATA [SP MSG]; PRI per section 6.2.1. */
  function Print5424(facility: nat, severity: nat, ts: string, host: string, app: string, procid: string,
                     msgid: string, data: string, msg: string): string
  {
    "<" + Digits(facility * 8 + severity) + ">" + Print5424Body(ts, host, app, procid, msgid, data, msg)
  }

  function Print5424Body(ts: string, host: string, app: string, procid: string, msgid: string, data: string,
                         msg: string): string
  {
    "1 " + (ts + " " + (host + " " + (app + " " + (procid + " " + (msgid + " " + DataLine(data, msg))))))
  }

  function DataLine(data: string, msg: string): string {
    if msg == "" then data else data + " " + msg
  }

  /** Nil structured data, or one element without a bracket inside. */
  predicate IsData(s: string) {
    || s == "-"
    || (|s| >= 2 && s[0] == '[' && s[|s| - 1] == ']' && ']' !in s[1..|s| - 1])
  }

  /** ASCII digits are digits of any such classes, and delimiters are not. */
  lemma DigitFacts(cls: Classes, k: nat)
    requires Proper(cls) && k < 10
    ensures cls.digit(DigitChar(k)) && cls.value(DigitChar(k)) == k
    ensures !cls.digit('>')
  {
    assert IsDigit(DigitChar(k));
  }

  lemma NumberAppend(cls: Classes, init: string, c: char)
    ensures NumberOf(cls, init + [c]) == NumberOf(cls, init) * 10 + cls.value(c)
  {
    assert (init + [c])[..|init|] == init;
  }

  lemma {:induction false} DigitsLength(n: nat)
    ensures Digits(n) != "" && (n < 1000 ==> |Digits(n)| <= 3)
    ensures n < 10 ==> |Digits(n)| == 1
    ensures n < 100 ==> |Digits(n)| <= 2
  {
    if n >= 10 {
      DigitsLength(n / 10);
    }
  }

  lemma {:induction false} DigitsRead(cls: Classes, n: nat)
    requires Proper(cls)
    ensures NumberOf(cls, Digits(n)) == n
    ensures forall i :: 0 <= i < |Digits(n)| ==> cls.digit(Digits(n)[i])
  {
    DigitFacts(cls, n % 10);
    hide Proper, DigitChar;
    if n >= 10 {
      DigitsRead(cls, n / 10);
      NumberAppend(cls, Digits(n / 10), DigitChar(n % 10));
    } else {
      NumberAppend(cls, "", DigitChar(n));
      assert Digits(n) == "" + [DigitChar(n)];
    }
    hide NumberOf;
  }

  lemma {:induction false} DigitRunOf(cls: Classes, d: string, rest: string)
    requires forall i :: 0 <= i < |d| ==> cls.digit(d[i])
    requires rest == "" || !cls.digit(rest[0])
    ensures DigitRun(cls, d + rest) == |d|
  {
    if d == "" {
      assert d + rest == rest;
    } else {
      assert (d + rest)[1..] == d[1..] + rest;
      DigitRunOf(cls, d[1..], rest);
    }
  }

  lemma PriReads(cls: Classes, n: nat, rest: string)
    requires Proper(cls) && n < 1000
    ensures MatchPri(cls, "<" + Digits(n) + ">" + rest) == Some((n, rest))
  {
    hide Digits, NumberOf, Proper, DigitRun;
    var s := "<" + Digits(n) + ">" + rest;
    DigitsRead(cls, n);
    DigitsLength(n);
    DigitFacts(cls, 0);
    assert s[1..] == Digits(n) + (">" + rest);
    DigitRunOf(cls, Digits(n), ">" + rest);
    assert s[1..|Digits(n)| + 1] == Digits(n) && s[|Digits(n)| + 2..] == rest;
  }

  lemma FieldReads(field: string, rest: string)
    requires IsToken(field)
    ensures MatchField(field + " " + rest) == Some((field, rest))
  {
    var s := field + " " + rest;
    assert s == field + (" " + rest);
    TokenLengthOf(field, " " + rest);
    assert s[..|field|] == field && s[|field| + 1..] == rest;
  }

  lemma {:induction false} BracketReads(inside: string, rest: string)
    requires ']' !in inside
    ensures AfterBracket(inside + "]" + rest) == Some(rest)
  {
    var s := inside + "]" + rest;
    if inside == "" {
      assert s[1..] == rest;
    } else {
      assert s[1..] == inside[1..] + "]" + rest;
      BracketReads(inside[1..], rest);
    }
  }

  lemma DataReads(data: string, msg: string)
    requires IsData(data) && IsStripped(msg)
    ensures MatchData(DataLine(data, msg)) == Some(msg)
  {
    hide IsStripped, AfterBracket;
    var rest := if msg == "" then "" else " " + msg;
    assert DataLine(data, msg) == data + rest && SkipSpace(rest) == msg;
    if data == "-" {
      assert (data + rest)[1..] == rest;
    } else {
      var inside := data[1..|data| - 1];
      assert (data + rest)[1..] == inside + "]" + rest;
      BracketReads(inside, rest);
    }
  }

  lemma BodyReads(ts: string, host: string, app: string, procid: string, msgid: string, data: string,
                  msg: string)
    requires IsToken(ts) && IsToken(host) && IsToken(app) && IsToken(procid) && IsToken(msgid)
    requires IsData(data) && IsStripped(msg)
    ensures Match5424(Print5424Body(ts, host, app, procid, msgid, data, msg)) == Some((app, msg))
  {
    hide MatchField, MatchData, DataLine, IsToken;
    var e := DataLine(data, msg);
    var d := msgid + " " + e;
    var c := procid + " " + d;
    var b := app + " " + c;
    var a := host + " " + b;
    var s := ts + " " + a;
    assert ("1 " + s)[2..] == s;
    FieldReads(ts, a);
    FieldReads(host, b);
    FieldReads(app, c);
    FieldReads(procid, d);
    FieldReads(msgid, e);
    DataReads(data, msg);
  }

  lemma DataEnd(data: string, msg: string)
    requires IsData(data) && IsStripped(msg)
    ensures DataLine(data, msg) != "" && !IsSpace(DataLine(data, msg)[|DataLine(data, msg)| - 1])
  {
  }

  /**
   Parsing inverts printing: facility, severity, app name and message come back for
   every facility 0..23, severity 0..7, whitespace-free header, structured data and stripped message;
   an app name over 100 characters is cut, and "-" means none.
   */
  lemma ParseInvertsPrint(cls: Classes, facility: nat, severity: nat, ts: string, host: string, app: string,
                          procid: string, msgid: string, data: string, msg: string)
    requires Proper(cls)
    requires facility < 24 && severity < 8 && IsStripped(msg)
    requires IsToken(ts) && IsToken(host) && IsToken(app) && IsToken(procid) && IsToken(msgid) && IsData(data)
    ensures ParseSyslog(cls, Print5424(facility, severity, ts, host, app, procid, msgid, data, msg))
            == Message(Some(facility), severity, if app == "-" then None else Some(Truncate(app, 100)), msg)
  {
    hide Print5424Body, Match5424, Match3164, DataLine, IsSpace, Digits, Strip, IsToken, Truncate;
    hide ParseSyslog, IsStripped;
    var pri := facility * 8 + severity;
    var body := Print5424Body(ts, host, app, procid, msgid, data, msg);
    BodyReads(ts, host, app, procid, msgid, data, msg);
    DataEnd(data, msg);
    BodyEnd(ts, host, app, procid, msgid, data, msg);
    PrintedParses(cls, pri, body);
    StripFixes(msg);
    assert pri / 8 == facility && pri % 8 == severity;
  }

  /** Any line that starts with a valid priority and does not end in whitespace is split there. */
  lemma PrintedParses(cls: Classes, pri: nat, body: string)
    requires Proper(cls)
    requires pri <= 191 && body != "" && !IsSpace(body[|body| - 1])
    ensures ParseSyslog(cls, "<" + Digits(pri) + ">" + body) == ParseBody(cls, Some(pri / 8), pri % 8, body)
  {
    hide ParseBody, Digits, MatchPri;
    var s := "<" + Digits(pri) + ">" + body;
    PriReads(cls, pri, body);
    StripFixes(s);
    assert s[0] == '<' && s[|s| - 1] == body[|body| - 1];
    assert !IsSpace('<');
  }

  lemma BodyEnd(ts: string, host: string, app: string, procid: string, msgid: string, data: string, msg: string)
    requires data != ""
    ensures var body := Print5424Body(ts, host, app, procid, msgid, data, msg);
      body != "" && body[|body| - 1] == DataLine(data, msg)[|DataLine(data, msg)| - 1]
  {
  }

  // ---- Printing in the RFC 3164 layout ----

  lemma {:induction false} RunOfPrefix(cls: Classes, extra: string, s: string, rest: string)
    requires AllIn(cls, extra, s) && (rest == "" || !IsIn(cls, extra, rest[0]))
    ensures RunOf(cls, extra, s + rest) == |s|
  {
    if s == "" {
      assert s + rest == rest;
    } else {
      assert (s + rest)[1..] == s[1..] + rest;
      RunOfPrefix(cls, extra, s[1..], rest);
    }
  }

  lemma RunDelimiters(cls: Classes)
    requires Proper(cls)
    ensures !IsIn(cls, TAG_EXTRA, ':') && !IsIn(cls, TAG_EXTRA, '[') && !cls.digit(']') && !IsIn(cls, HOST_EXTRA, ' ')
  {
  }

  /** The tag, its colon and, if there is one, the message after a space. */
  function TagLine(tag: string, msg: string): string {
    if msg == "" then tag + ":" else tag + ": " + msg
  }

  /** `<PRI>Mmm dd hh:mm:ss host tag: message` */
  function Print3164(pri: nat, stamp: string, host: string, tag: string, msg: string): string {
    "<" + Digits(pri) + ">" + (stamp + (host + " " + TagLine(tag, msg)))
  }

  lemma AfterTag(cls: Classes, tag: string, rest: string)
    requires Proper(cls) && IsTag(cls, tag)
    requires rest != "" && rest[0] == ':'
    ensures MatchTag(cls, tag + rest) == Some((tag, SkipSpace(rest[1..])))
  {
    hide RunOf, IsIn, SkipSpace, MatchTag, DigitRun, TagEndsAt, Proper;
    RunDelimiters(cls);
    var n: nat :| n <= |tag| && TagEndsAt(cls, tag, n);
    if n == |tag| {
      PlainTag(cls, tag, rest);
    } else {
      NumberedTag(cls, tag, n, rest);
    }
  }

  lemma PlainTag(cls: Classes, tag: string, rest: string)
    requires TagEndsAt(cls, tag, |tag|) && !IsIn(cls, TAG_EXTRA, ':')
    requires rest != "" && rest[0] == ':'
    ensures MatchTag(cls, tag + rest) == Some((tag, SkipSpace(rest[1..])))
  {
    hide RunOf, IsIn, SkipSpace, DigitRun;
    var s := tag + rest;
    assert tag[..|tag|] == tag;
    RunOfPrefix(cls, TAG_EXTRA, tag, rest);
    assert s[..|tag|] == tag && s[|tag|] == ':' && s[|tag| + 1..] == rest[1..];
  }

  lemma NumberedTag(cls: Classes, tag: string, n: nat, rest: string)
    requires TagEndsAt(cls, tag, n) && n < |tag| && !cls.digit(']') && !IsIn(cls, TAG_EXTRA, '[')
    requires rest != "" && rest[0] == ':'
    ensures MatchTag(cls, tag + rest) == Some((tag, SkipSpace(rest[1..])))
  {
    hide RunOf, IsIn, SkipSpace, MatchTag, DigitRun;
    var s, number := tag + rest, tag[n + 1..|tag| - 1];
    assert s == tag[..n] + (tag[n..] + rest);
    RunOfPrefix(cls, TAG_EXTRA, tag[..n], tag[n..] + rest);
    assert s[n + 1..] == number + ("]" + rest);
    DigitRunOf(cls, number, "]" + rest);
    hide TagEndsAt;
    assert s[|tag| - 1] == ']' && s[|tag|] == ':';
    BracketedTag(cls, s, n, |number|);
    assert s[..|tag|] == tag && s[|tag| + 1..] == rest[1..];
  }

  lemma BracketedTag(cls: Classes, s: string, n: nat, m: nat)
    requires n > 0 && m > 0 && n + m + 2 < |s| && RunOf(cls, TAG_EXTRA, s) == n
    requires s[n] == '[' && DigitRun(cls, s[n + 1..]) == m && s[n + m + 1] == ']' && s[n + m + 2] == ':'
    ensures MatchTag(cls, s) == Some((s[..n + m + 2], SkipSpace(s[n + m + 3..])))
  {
    hide RunOf, DigitRun, SkipSpace;
  }

  lemma TagReads(cls: Classes, tag: string, msg: string)
    requires Proper(cls) && IsTag(cls, tag)
    ensures MatchTag(cls, TagLine(tag, msg)) == Some((tag, msg))
  {
    var rest := if msg == "" then ":" else ": " + msg;
    hide MatchTag, IsTag, Proper;
    AfterTag(cls, tag, rest);
    assert TagLine(tag, msg) == tag + rest;
    assert msg != "" ==> rest[1..] == " " + msg && (" " + msg)[1..] == msg;
  }

  /** A classic line gives its priority, tag and message. */
  lemma ParseInverts3164(cls: Classes, pri: nat, stamp: string, host: string, tag: string, msg: string)
    requires pri <= 191 && |stamp| == 16 && HasStamp(cls, stamp) && IsStripped(msg)
    requires Proper(cls) && IsHost(cls, host) && IsTag(cls, tag)
    ensures ParseSyslog(cls, Print3164(pri, stamp, host, tag, msg))
            == Message(Some(pri / 8), pri % 8, Some(Truncate(tag, 100)), msg)
  {
    hide Proper, HasStamp, IsHost, IsTag, Match5424, Match3164, Strip, IsStripped, IsSpace, Digits, TagLine;
    hide ParseSyslog, Truncate;
    ClassicReads(cls, stamp, host, tag, msg);
    PrintedParses(cls, pri, stamp + (host + " " + TagLine(tag, msg)));
    StripFixes(msg);
  }

  lemma ClassicReads(cls: Classes, stamp: string, host: string, tag: string, msg: string)
    requires |stamp| == 16 && HasStamp(cls, stamp) && IsStripped(msg)
    requires Proper(cls) && IsHost(cls, host) && IsTag(cls, tag)
    ensures var body := stamp + (host + " " + TagLine(tag, msg));
      && Match5424(body).None? && Match3164(cls, body) == Some((tag, msg))
      && body != "" && !IsSpace(body[|body| - 1])
  {
    hide Proper, MatchHostTag, HasStamp, Match5424, IsSpace, IsHost, IsTag, TagLine;
    var tail := TagLine(tag, msg);
    var line := host + " " + tail;
    HostTagReads(cls, host, tag, msg);
    StampedReads(cls, stamp, line);
    TagLineEnd(tag, msg);
    assert (stamp + line)[|stamp + line| - 1] == tail[|tail| - 1];
  }

  lemma TagLineEnd(tag: string, msg: string)
    requires IsStripped(msg)
    ensures TagLine(tag, msg) != "" && !IsSpace(TagLine(tag, msg)[|TagLine(tag, msg)| - 1])
  {
  }

  lemma HostTagReads(cls: Classes, host: string, tag: string, msg: string)
    requires Proper(cls) && IsHost(cls, host) && IsTag(cls, tag)
    ensures MatchHostTag(cls, host + " " + TagLine(tag, msg)) == Some((tag, msg))
  {
    var tail := TagLine(tag, msg);
    var line := host + " " + tail;
    assert line == host + (" " + tail);
    RunDelimiters(cls);
    RunOfPrefix(cls, HOST_EXTRA, host, " " + tail);
    hide RunOf, IsIn, Proper, MatchTag;
    assert line[|host| + 1..] == tail;
    TagReads(cls, tag, msg);
  }

  lemma StampedReads(cls: Classes, stamp: string, line: string)
    requires |stamp| == 16 && HasStamp(cls, stamp)
    ensures HasStamp(cls, stamp + line) && (stamp + line)[16..] == line && Match5424(stamp + line).None?
  {
    var s := stamp + line;
    assert forall i :: 0 <= i < 16 ==> s[i] == stamp[i];
    assert !StartsWith(s, "1 ") by {
      assert IsUpper(s[0]) && "1 "[0] == '1';
    }
  }

  // ---- The row a datagram becomes ----

  datatype Row = Row(host: string, facility: Option<nat>, severity: nat, app: Option<string>, text: string)

  /** A datagram with nothing left to say is not buffered. */
  function RowOf(cls: Classes, host: string, raw: string): Option<Row> {
    var m := ParseSyslog(cls, raw);
    if m.text == "" then None
    else Some(Row(host, m.facility, m.severity, m.app, Truncate(m.text, 8000)))
  }

  /** What is left of a datagram behind its priority. */
  function BodyOf(cls: Classes, raw: string): string {
    var rest := Strip(raw);
    var pri := MatchPri(cls, rest);
    if pri.None? then rest else pri.value.1
  }

  /** Nothing at all, or a header that ends the text: an RFC 5424 header, or else a tag and its colon. */
  predicate SaysNothing(cls: Classes, body: string) {
    || body == ""
    || (if Match5424(body).Some? then Match5424(body).value.1 == ""
        else Match3164(cls, body).Some? && Match3164(cls, body).value.1 == "")
  }

  /** t is empty or ends as s does. */
  predicate KeepsEnd(t: string, s: string) {
    t == "" || (s != "" && t[|t| - 1] == s[|s| - 1])
  }

  lemma {:induction false} BracketKeepsEnd(s: string)
    ensures AfterBracket(s).Some? ==> KeepsEnd(AfterBracket(s).value, s)
  {
    if s != "" {
      BracketKeepsEnd(s[1..]);
    }
  }

  lemma DataKeepsEnd(s: string, all: string)
    requires KeepsEnd(s, all)
    ensures MatchData(s).Some? ==> KeepsEnd(MatchData(s).value, all)
  {
    if s != "" {
      BracketKeepsEnd(s[1..]);
    }
  }

  lemma FieldKeepsEnd(s: string, all: string)
    requires KeepsEnd(s, all)
    ensures MatchField(s).Some? ==> KeepsEnd(MatchField(s).value.1, all)
  {
  }

  /** What follows n fields. */
  function AfterFields(s: string, n: nat): Option<string> {
    if n == 0 then Some(s)
    else if MatchField(s).None? then None
    else AfterFields(MatchField(s).value.1, n - 1)
  }

  lemma {:induction false} AfterFieldsKeepsEnd(s: string, n: nat, all: string)
    requires KeepsEnd(s, all)
    ensures AfterFields(s, n).Some? ==> KeepsEnd(AfterFields(s, n).value, all)
    decreases n
  {
    hide MatchField, KeepsEnd;
    if n > 0 && MatchField(s).Some? {
      FieldKeepsEnd(s, all);
      AfterFieldsKeepsEnd(MatchField(s).value.1, n - 1, all);
    }
  }

  lemma FiveFields(s: string)
    ensures AfterFields(s, 5) ==
      var a := MatchField(s);
      if a.None? then None else
      var b := MatchField(a.value.1);
      if b.None? then None else
      var c := MatchField(b.value.1);
      if c.None? then None else
      var d := MatchField(c.value.1);
      if d.None? then None else
      var e := MatchField(d.value.1);
      if e.None? then None else Some(e.value.1)
  {
    OneField(s, 5);
    hide MatchField, AfterFields;
    if MatchField(s).Some? {
      var t := MatchField(s).value.1;
      OneField(t, 4);
      if MatchField(t).Some? {
        var u := MatchField(t).value.1;
        OneField(u, 3);
        if MatchField(u).Some? {
          TwoFields(MatchField(u).value.1);
        }
      }
    }
  }

  lemma OneField(s: string, n: nat)
    requires n > 0
    ensures AfterFields(s, n) == if MatchField(s).None? then None else AfterFields(MatchField(s).value.1, n - 1)
  {
  }

  lemma TwoFields(s: string)
    ensures AfterFields(s, 2) ==
      var d := MatchField(s);
      if d.None? then None else
      var e := MatchField(d.value.1);
      if e.None? then None else Some(e.value.1)
  {
    hide MatchField;
    if MatchField(s).Some? {
      OneField(MatchField(s).value.1, 1);
    }
  }

  lemma HeaderKeepsEnd(s: string)
    ensures Match5424(s).Some? ==> KeepsEnd(Match5424(s).value.1, s)
  {
    if Match5424(s).Some? {
      assert KeepsEnd(s[2..], s);
      FiveFields(s[2..]);
      AfterFieldsKeepsEnd(s[2..], 5, s);
      hide MatchField, MatchData, KeepsEnd, AfterFields;
      DataKeepsEnd(AfterFields(s[2..], 5).value, s);
    }
  }

  lemma TagKeepsEnd(cls: Classes, s: string)
    ensures MatchTag(cls, s).Some? ==> KeepsEnd(MatchTag(cls, s).value.1, s)
  {
  }

  lemma HostTagKeepsEnd(cls: Classes, s: string)
    ensures MatchHostTag(cls, s).Some? ==> KeepsEnd(MatchHostTag(cls, s).value.1, s)
  {
    hide MatchTag;
    TagKeepsEnd(cls, s);
    var n := RunOf(cls, HOST_EXTRA, s);
    if n < |s| {
      TagKeepsEnd(cls, s[n + 1..]);
    }
  }

  lemma ClassicKeepsEnd(cls: Classes, s: string)
    ensures Match3164(cls, s).Some? ==> KeepsEnd(Match3164(cls, s).value.1, s)
  {
    hide MatchHostTag;
    HostTagKeepsEnd(cls, s);
    if HasStamp(cls, s) {
      HostTagKeepsEnd(cls, s[16..]);
    }
  }

  lemma BodyKeepsEnd(cls: Classes, raw: string)
    ensures BodyOf(cls, raw) == "" || !IsSpace(BodyOf(cls, raw)[|BodyOf(cls, raw)| - 1])
  {
    StripFixes(raw);
    hide Strip, NumberOf, IsSpace;
    assert KeepsEnd(BodyOf(cls, raw), Strip(raw));
  }

  lemma StripsToNothing(m: string, body: string)
    requires KeepsEnd(m, body) && (body == "" || !IsSpace(body[|body| - 1]))
    ensures Strip(m) == "" <==> m == ""
  {
    if m != "" {
      VisibleEndSurvives(m);
    }
  }

  lemma BodyTextEmptyIff(cls: Classes, facility: Option<nat>, severity: nat, body: string)
    requires body == "" || !IsSpace(body[|body| - 1])
    ensures ParseBody(cls, facility, severity, body).text == "" <==> SaysNothing(cls, body)
  {
    HeaderKeepsEnd(body);
    ClassicKeepsEnd(cls, body);
    hide Match5424, Match3164, Strip, IsSpace, KeepsEnd;
    if Match5424(body).Some? {
      StripsToNothing(Match5424(body).value.1, body);
    } else if Match3164(cls, body).Some? {
      StripsToNothing(Match3164(cls, body).value.1, body);
    }
    if body == "" {
      NothingMatches(cls);
    }
  }

  lemma NothingMatches(cls: Classes)
    ensures Match5424("").None? && Match3164(cls, "").None?
  {
  }

  /** A datagram leaves no row exactly if there is no message in it; everything else leaves one. */
  lemma DroppedIffNothingSaid(cls: Classes, host: string, raw: string)
    ensures RowOf(cls, host, raw) == None <==> SaysNothing(cls, BodyOf(cls, raw))
  {
    BodyKeepsEnd(cls, raw);
    hide ParseBody, SaysNothing, MatchPri, Strip, IsSpace;
    var pri := MatchPri(cls, Strip(raw));
    var facility := if pri.Some? && pri.value.0 <= 191 then Some(pri.value.0 / 8) else None;
    BodyTextEmptyIff(cls, facility, if pri.Some? && pri.value.0 <= 191 then pri.value.0 % 8 else 6, BodyOf(cls, raw));
  }

  /** A legal RFC 5424 message is dropped exactly if it has no MSG part; otherwise its row is its header and text. */
  lemma PrintedDroppedIff(cls: Classes, to: string, facility: nat, severity: nat, ts: string, host: string,
                          app: string, procid: string, msgid: string, data: string, msg: string)
    requires Proper(cls)
    requires facility < 24 && severity < 8 && IsStripped(msg)
    requires IsToken(ts) && IsToken(host) && IsToken(app) && IsToken(procid) && IsToken(msgid) && IsData(data)
    ensures RowOf(cls, to, Print5424(facility, severity, ts, host, app, procid, msgid, data, msg)) == None
      <==> msg == ""
    ensures msg != "" ==>
      RowOf(cls, to, Print5424(facility, severity, ts, host, app, procid, msgid, data, msg))
      == Some(Row(to, Some(facility), severity,
                  if app == "-" then None else Some(if |app| <= 100 then app else app[..100]),
                  if |msg| <= 8000 then msg else msg[..8000]))
  {
    hide ParseSyslog, Print5424, IsStripped, IsToken;
    ParseInvertsPrint(cls, facility, severity, ts, host, app, procid, msgid, data, msg);
  }

  /** A classic line is dropped exactly if nothing follows its tag; otherwise its row has its priority, tag and text. */
  lemma ClassicDroppedIff(cls: Classes, to: string, pri: nat, stamp: string, host: string, tag: string, msg: string)
    requires pri <= 191 && |stamp| == 16 && HasStamp(cls, stamp) && IsStripped(msg)
    requires Proper(cls) && IsHost(cls, host) && IsTag(cls, tag)
    ensures RowOf(cls, to, Print3164(pri, stamp, host, tag, msg)) == None <==> msg == ""
    ensures msg != "" ==>
      RowOf(cls, to, Print3164(pri, stamp, host, tag, msg))
      == Some(Row(to, Some(pri / 8), pri % 8, Some(if |tag| <= 100 then tag else tag[..100]),
                  if |msg| <= 8000 then msg else msg[..8000]))
  {
    hide Proper, ParseSyslog, Print3164, IsStripped, HasStamp, IsHost, IsTag;
    ParseInverts3164(cls, pri, stamp, host, tag, msg);
  }

  lemma TagNeedsColon(cls: Classes, s: string)
    requires ':' !in s
    ensures MatchTag(cls, s).None?
  {
    hide RunOf, DigitRun;
  }

  lemma ClassicNeedsColon(cls: Classes, s: string)
    requires ':' !in s
    ensures Match3164(cls, s).None?
  {
    hide RunOf, MatchTag;
    var n := RunOf(cls, HOST_EXTRA, s);
    assert !HasStamp(cls, s);
    assert n < |s| ==> ':' !in s[n + 1..];
    TagNeedsColon(cls, s);
    if n < |s| {
      TagNeedsColon(cls, s[n + 1..]);
    }
  }

  /**
   Text that fits neither header is kept as it is: from a valid priority it takes its
   classes, from none or one beyond 191 it is severity 6 without a facility.
   */
  lemma UnparsedIsKept(cls: Classes, host: string, text: string, n: nat)
    requires Proper(cls) && n < 1000
    requires text != "" && IsStripped(text) && ':' !in text && !StartsWith(text, "1 ")
    ensures var kept := if |text| <= 8000 then text else text[..8000];
      && (text[0] != '<' ==> RowOf(cls, host, text) == Some(Row(host, None, 6, None, kept)))
      && (n <= 191 ==>
            RowOf(cls, host, "<" + Digits(n) + ">" + text) == Some(Row(host, Some(n / 8), n % 8, None, kept)))
      && (n > 191 ==> RowOf(cls, host, "<" + Digits(n) + ">" + text) == Some(Row(host, None, 6, None, kept)))
  {
    hide Proper, Digits, Strip, IsSpace, Match3164, MatchPri;
    var s := "<" + Digits(n) + ">" + text;
    ClassicNeedsColon(cls, text);
    PriReads(cls, n, text);
    StrippedBehindPri(Digits(n), text);
    StripFixes(text);
    StripFixes(s);
    NoPri(cls, text);
  }

  lemma StrippedBehindPri(digits: string, text: string)
    requires text != "" && IsStripped(text)
    ensures IsStripped("<" + digits + ">" + text)
  {
    var s := "<" + digits + ">" + text;
    assert s[|s| - 1] == text[|text| - 1] && s[0] == '<' && !IsSpace('<');
  }

  lemma NoPri(cls: Classes, s: string)
    ensures s != "" && s[0] != '<' ==> MatchPri(cls, s).None?
  {
  }

  /** A tag and its colon are dropped, whatever word characters it is made of. */
  lemma TagAloneIsDropped(cls: Classes, to: string, tag: string)
    requires Proper(cls) && IsTag(cls, tag)
    ensures RowOf(cls, to, tag + ":") == None
  {
    var s := tag + ":";
    TagHasNoSpace(cls, tag);
    StripFixes(s);
    TagReads(cls, tag, "");
    assert s[|s| - 1] == ':' && !IsSpace(':') && s[0] == tag[0];
    hide Proper, Strip, MatchTag, IsTag, NumberOf, TokenLength;
    assert forall i :: 0 <= i < |s| ==> s[i] == if i < |tag| then tag[i] else ':';
    assert MatchPri(cls, s).None? && Match5424(s).None?;
    assert Match3164(cls, s) == Some((tag, ""));
    assert s == BodyOf(cls, s);
    DroppedIffNothingSaid(cls, to, s);
  }

  lemma TagHasNoSpace(cls: Classes, tag: string)
    requires Proper(cls) && IsTag(cls, tag)
    ensures forall i :: 0 <= i < |tag| ==> tag[i] != ' ' && !IsSpace(tag[i])
    ensures tag[0] != '<'
  {
    var n: nat :| n <= |tag| && TagEndsAt(cls, tag, n);
    forall i | 0 <= i < |tag|
      ensures tag[i] != ' ' && !IsSpace(tag[i])
    {
      assert i < n ==> tag[..n][i] == tag[i] && IsIn(cls, TAG_EXTRA, tag[i]);
    }
    assert tag[..n][0] == tag[0] && IsIn(cls, TAG_EXTRA, tag[0]);
  }

  /** So is a bare priority, although the documentation says nothing is ever dropped. */
  lemma BarePriorityIsDropped(cls: Classes, host: string, n: nat)
    requires Proper(cls)
    requires n < 1000
    ensures RowOf(cls, host, "<" + Digits(n) + ">") == None
  {
    var s := "<" + Digits(n) + ">";
    assert s == s + "";
    PriReads(cls, n, "");
    StripFixes(s);
    assert s[0] == '<' && s[|s| - 1] == '>' && !IsSpace('<') && !IsSpace('>');
    hide Strip, MatchPri;
    assert Match5424("").None? && RunOf(cls, HOST_EXTRA, "") == 0 && RunOf(cls, TAG_EXTRA, "") == 0;
  }
}
