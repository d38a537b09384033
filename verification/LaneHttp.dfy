/**
 The loopback HTTP server's request parser and receive loop
 (browser-lane-app/Sources/BrowserLaneApp/LaneHTTPServer.swift). How header bytes decode
 to text is a parameter.
 */
module LaneHttp {
  import opened Wrappers
  import opened Text

  type Byte = b: int | 0 <= b < 0x100
  type Bytes = seq<Byte>
  type Decoder = Bytes -> Option<string>

  datatype Request = Request(verb: string, path: string, body: Bytes)

  const SEPARATOR: Bytes := [13, 10, 13, 10]

  predicate SeparatorAt(buf: Bytes, i: nat) {
    i + 4 <= |buf| && buf[i] == 13 && buf[i + 1] == 10 && buf[i + 2] == 13 && buf[i + 3] == 10
  }

  /** The first blank line from position i on. */
  function FindSeparator(buf: Bytes, i: nat): (p: Option<nat>)
    requires i <= |buf|
    ensures p.Some? ==> i <= p.value && SeparatorAt(buf, p.value)
    ensures forall j :: i <= j < (if p.Some? then p.value else |buf|) ==> !SeparatorAt(buf, j)
    decreases |buf| - i
  {
    if i == |buf| then None else if SeparatorAt(buf, i) then Some(i) else FindSeparator(buf, i + 1)
  }

  /** The lines between CR LF pairs. */
  function HeaderLines(s: string): (lines: seq<string>)
    ensures lines != []
  {
    if s == "" then [""]
    else if |s| > 1 && s[0] == '\r' && s[1] == '\n' then [""] + HeaderLines(s[2..])
    else
      var lines := HeaderLines(s[1..]);
      [[s[0]] + lines[0]] + lines[1..]
  }

  predicate IsBlank(c: char) { c == ' ' || c == '\t' }

  predicate NotColon(c: char) { c != ':' }

  const LENGTH_FIELD: string := "content-length:"

  predicate IsLengthField(line: string) {
    LENGTH_FIELD <= Lower(line)
  }

  /** What follows the first colon, as a number; anything else counts as zero. */
  function LengthValue(line: string): int {
    var colon := Lead(NotColon, line);
    var value := if colon < |line| then line[colon + 1..] else "";
    match ReadInt(Strip(IsBlank, value))
    case None => 0
    case Some(n) => n
  }

  /** The last length field decides. */
  function ContentLength(lines: seq<string>): int {
    if lines == [] then 0
    else
      var last := lines[|lines| - 1];
      if IsLengthField(last) then LengthValue(last) else ContentLength(lines[..|lines| - 1])
  }

  datatype Head = Head(verb: string, path: string, contentLength: int)

  function ParseHead(decode: Decoder, header: Bytes): Option<Head> {
    var text :- decode(header);
    var lines := HeaderLines(text);
    var parts := Pieces(lines[0], ' ');
    if |parts| < 2 then None else Some(Head(parts[0], parts[1], ContentLength(lines[1..])))
  }

  /** How header bytes are understood. */
  type HeadReader = Bytes -> Option<Head>

  function Reader(decode: Decoder): HeadReader {
    header => ParseHead(decode, header)
  }

  /** The request at the front of the buffer, if as many body bytes as announced have arrived. */
  function WithBody(head: Head, buf: Bytes, start: nat): Option<Request>
    requires start <= |buf|
  {
    if |buf| - start < head.contentLength then None
    else Some(Request(head.verb, head.path, if head.contentLength > 0 then buf[start..start + head.contentLength] else []))
  }

  /** A request, once its header and as many bytes as it announces have arrived. */
  function Parsed(read: HeadReader, buf: Bytes): Option<Request> {
    var sep :- FindSeparator(buf, 0);
    var head :- read(buf[..sep]);
    WithBody(head, buf, sep + 4)
  }

  lemma {:induction false} ContentLengthStep(lines: seq<string>, i: nat)
    requires 1 <= i < |lines|
    ensures ContentLength(lines[1..i + 1]) == if IsLengthField(lines[i]) then LengthValue(lines[i]) else ContentLength(lines[1..i])
  {
    assert lines[1..i + 1] == lines[1..i] + [lines[i]];
    LastLine(lines[1..i], lines[i]);
  }

  lemma {:induction false} LastLine(lines: seq<string>, last: string)
    ensures ContentLength(lines + [last]) == if IsLengthField(last) then LengthValue(last) else ContentLength(lines)
  {
    assert (lines + [last])[..|lines|] == lines;
  }

  /** The loop over the lines after the request line; a later field overwrites an earlier one. */
  method ScanLength(lines: seq<string>) returns (contentLength: int)
    requires lines != []
    ensures contentLength == ContentLength(lines[1..])
  {
    contentLength := 0;
    for i := 1 to |lines|
      invariant contentLength == ContentLength(lines[1..i])
    {
      ContentLengthStep(lines, i);
      if IsLengthField(lines[i]) {
        contentLength := LengthValue(lines[i]);
      }
    }
    assert lines[1..|lines|] == lines[1..];
  }

  method ReadHead(decode: Decoder, header: Bytes) returns (head: Option<Head>)
    ensures head == ParseHead(decode, header)
  {
    var text := decode(header);
    if text.None? {
      return None;
    }
    var lines := HeaderLines(text.value);
    var parts := Pieces(lines[0], ' ');
    if |parts| < 2 {
      return None;
    }
    var contentLength := ScanLength(lines);
    return Some(Head(parts[0], parts[1], contentLength));
  }

  method Parse(decode: Decoder, buf: Bytes) returns (r: Option<Request>)
    ensures r == Parsed(Reader(decode), buf)
  {
    var sep := FindSeparator(buf, 0);
    if sep.None? {
      return None;
    }
    var head := ReadHead(decode, buf[..sep.value]);
    if head.None? {
      return None;
    }
    return WithBody(head.value, buf, sep.value + 4);
  }

  // ---- more bytes change nothing once a request is there

  lemma {:induction false} SeparatorStays(buf: Bytes, more: Bytes)
    requires FindSeparator(buf, 0).Some?
    ensures FindSeparator(buf + more, 0) == FindSeparator(buf, 0)
  {
    var p := FindSeparator(buf, 0).value;
    var q := FindSeparator(buf + more, 0);
    assert SeparatorAt(buf + more, p);
    assert q.Some? && q.value <= p;
    assert SeparatorAt(buf, q.value);
  }

  lemma {:induction false} SliceStays<T>(a: seq<T>, b: seq<T>, i: nat, j: nat)
    requires i <= j <= |a|
    ensures (a + b)[i..j] == a[i..j] && (a + b)[..j] == a[..j]
  {
  }

  lemma {:induction false} ParsedStays(read: HeadReader, buf: Bytes, more: Bytes)
    requires Parsed(read, buf).Some?
    ensures Parsed(read, buf + more) == Parsed(read, buf)
  {
    SeparatorStays(buf, more);
    var sep := FindSeparator(buf, 0).value;
    SliceStays(buf, more, 0, sep);
    var head := read(buf[..sep]);
    if head.value.contentLength > 0 {
      SliceStays(buf, more, sep + 4, sep + 4 + head.value.contentLength);
    }
  }

  // ---- the receive loop

  /** One callback of the transport: some bytes perhaps, and whether the stream is over. */
  datatype Delivery = Delivery(data: Option<Bytes>, isComplete: bool, failed: bool) {
    function Bytes(): Bytes { if data.Some? then data.value else [] }
    predicate Final() { isComplete || failed }
  }

  datatype Connection = Receiving(buffer: Bytes) | Handled(request: Request) | Rejected

  function Receive(read: HeadReader, c: Connection, d: Delivery): Connection {
    if !c.Receiving? then c
    else
      var buf := c.buffer + d.Bytes();
      match Parsed(read, buf)
      case Some(request) => Handled(request)
      case None => if d.Final() then Rejected else Receiving(buf)
  }

  function ReceiveAll(read: HeadReader, c: Connection, ds: seq<Delivery>): Connection
    decreases |ds|
  {
    if ds == [] then c else ReceiveAll(read, Receive(read, c, ds[0]), ds[1..])
  }

  function Stream(ds: seq<Delivery>): Bytes {
    if ds == [] then [] else (match ds[0].data case None => [] case Some(bytes) => bytes) + Stream(ds[1..])
  }

  /** Nothing comes after the end of the stream. */
  ghost predicate OneStream(ds: seq<Delivery>) {
    forall i :: 0 <= i < |ds| - 1 ==> !ds[i].isComplete && !ds[i].failed
  }

  predicate Ended(ds: seq<Delivery>) {
    ds != [] && (ds[|ds| - 1].isComplete || ds[|ds| - 1].failed)
  }

  /** What a connection's whole stream amounts to, however it was cut up. */
  function Outcome(read: HeadReader, stream: Bytes, ended: bool): Connection {
    match Parsed(read, stream)
    case Some(request) => Handled(request)
    case None => if ended then Rejected else Receiving(stream)
  }

  lemma {:induction false} ClosedStays(read: HeadReader, c: Connection, ds: seq<Delivery>)
    requires !c.Receiving?
    ensures ReceiveAll(read, c, ds) == c
    decreases |ds|
  {
    if ds != [] {
      ClosedStays(read, c, ds[1..]);
    }
  }

  lemma {:induction false} ReceiveAllOutcome(read: HeadReader, buffer: Bytes, ds: seq<Delivery>)
    requires OneStream(ds)
    requires Parsed(read, buffer).None?
    ensures ReceiveAll(read, Receiving(buffer), ds) == Outcome(read, buffer + Stream(ds), Ended(ds))
    decreases |ds|
  {
    if ds == [] {
      assert buffer + [] == buffer;
    } else {
      var buf, rest := buffer + ds[0].Bytes(), Stream(ds[1..]);
      assert buffer + Stream(ds) == buf + rest;
      if Parsed(read, buf).Some? {
        ParsedStays(read, buf, rest);
        ClosedStays(read, Handled(Parsed(read, buf).value), ds[1..]);
      } else if ds[0].Final() {
        assert |ds| == 1;
        assert buf + [] == buf;
      } else {
        assert forall i :: 0 <= i < |ds[1..]| ==> ds[1..][i] == ds[i + 1];
        ReceiveAllOutcome(read, buf, ds[1..]);
      }
    }
  }

  /** The request delivered, or the refusal, depends on the bytes sent and not on how they were cut. */
  lemma {:induction false} SegmentationDoesNotMatter(read: HeadReader, ds: seq<Delivery>, es: seq<Delivery>)
    requires OneStream(ds) && OneStream(es)
    requires Stream(ds) == Stream(es) && Ended(ds) == Ended(es)
    ensures ReceiveAll(read, Receiving([]), ds) == ReceiveAll(read, Receiving([]), es)
         == Outcome(read, Stream(ds), Ended(ds))
  {
    assert [] + Stream(ds) == Stream(ds) && [] + Stream(es) == Stream(es);
    ReceiveAllOutcome(read, [], ds);
    ReceiveAllOutcome(read, [], es);
  }

  class Receiver {
    const decode: Decoder
    var buffer: Bytes
    var open: bool
    var handled: seq<Request>    // the requests given to the handler
    var rejections: nat          // the refusals sent

    ghost predicate Valid()
      reads this
    {
      && |handled| + rejections == (if open then 0 else 1)
      && (open ==> Parsed(Reader(decode), buffer).None?)
    }

    ghost function State(): Connection
      requires Valid()
      reads this
    {
      if open then Receiving(buffer) else if rejections > 0 then Rejected else Handled(handled[0])
    }

    constructor (decode: Decoder)
      ensures Valid() && State() == Receiving([]) && this.decode == decode
    {
      this.decode := decode;
      buffer, open, handled, rejections := [], true, [], 0;
    }

    /** One callback; after a request or a refusal no further one is asked for. */
    method DidReceive(d: Delivery)
      requires Valid()
      modifies this
      ensures Valid() && State() == Receive(Reader(decode), old(State()), d)
    {
      if !open {
        return;
      }
      buffer := buffer + d.Bytes();
      var request := Parse(decode, buffer);
      if request.Some? {
        handled, open := handled + [request.value], false;
      } else if d.Final() {
        rejections, open := rejections + 1, false;
      }
    }
  }

  // ---- a well-formed request is recognised

  predicate IsPlain(s: string) {
    forall i :: 0 <= i < |s| ==> s[i] != '\r' && s[i] != '\n' && s[i] as int < 0x80
  }

  function AsciiBytes(s: string): (bs: Bytes)
    requires IsAscii(s)
    ensures |bs| == |s|
    ensures forall i :: 0 <= i < |s| ==> bs[i] == s[i] as int
  {
    seq(|s|, i requires 0 <= i < |s| => s[i] as int)
  }

  /** ASCII text decodes to itself. */
  ghost predicate DecodesAscii(decode: Decoder) {
    forall s: string :: IsAscii(s) ==> decode(AsciiBytes(s)) == Some(s)
  }

  lemma {:induction false} PlainLine(s: string)
    requires IsPlain(s)
    ensures HeaderLines(s) == [s]
  {
    if s != "" {
      PlainLine(s[1..]);
      assert [s[0]] + s[1..] == s;
    }
  }

  /** Header lines as they are sent: CR LF between neighbours. */
  function Joined(lines: seq<string>): string
    requires lines != []
  {
    if |lines| == 1 then lines[0] else lines[0] + "\r\n" + Joined(lines[1..])
  }

  predicate AreLines(lines: seq<string>) {
    forall i :: 0 <= i < |lines| ==> lines[i] != "" && IsPlain(lines[i])
  }

  lemma {:induction false} LineThen(a: string, t: string)
    requires IsPlain(a)
    ensures HeaderLines(a + "\r\n" + t) == [a] + HeaderLines(t)
  {
    var u := a + "\r\n" + t;
    if a == "" {
      assert u[2..] == t;
    } else {
      assert u[1..] == a[1..] + "\r\n" + t;
      LineThen(a[1..], t);
      assert [a[0]] + a[1..] == a;
    }
  }

  /** The lines are taken apart again. */
  lemma {:induction false} JoinedLines(lines: seq<string>)
    requires lines != [] && AreLines(lines)
    ensures HeaderLines(Joined(lines)) == lines
  {
    if |lines| == 1 {
      PlainLine(lines[0]);
    } else {
      LineThen(lines[0], Joined(lines[1..]));
      JoinedLines(lines[1..]);
    }
  }

  predicate HasBreak(s: string, i: nat) {
    i + 1 < |s| && s[i] == '\r' && s[i + 1] == '\n'
  }

  /** The lines of any text, joined again, are the text, and no line has a CR LF in it. */
  lemma {:induction false} LinesExactly(s: string)
    ensures Joined(HeaderLines(s)) == s
    ensures forall k, i :: 0 <= k < |HeaderLines(s)| && 0 <= i < |HeaderLines(s)[k]| ==> !HasBreak(HeaderLines(s)[k], i)
  {
    if s != "" {
      if |s| > 1 && s[0] == '\r' && s[1] == '\n' {
        LinesExactly(s[2..]);
        var lines := HeaderLines(s[2..]);
        assert ([""] + lines)[1..] == lines;
        assert s == "" + "\r\n" + s[2..];
      } else {
        LinesExactly(s[1..]);
        var lines := HeaderLines(s[1..]);
        var longer := [[s[0]] + lines[0]] + lines[1..];
        assert longer[1..] == lines[1..];
        assert s == [s[0]] + s[1..];
        JoinedFirst([s[0]], lines);
        FirstOfLines(s[1..], lines);
        forall i | 0 <= i < |longer[0]| ensures !HasBreak(longer[0], i) {
          if i > 0 {
            assert !HasBreak(lines[0], i - 1);
          }
        }
      }
    }
  }

  lemma {:induction false} JoinedFirst(a: string, lines: seq<string>)
    requires lines != []
    ensures Joined([a + lines[0]] + lines[1..]) == a + Joined(lines)
  {
    assert ([a + lines[0]] + lines[1..])[1..] == lines[1..];
  }

  /** The first line begins as the text does. */
  lemma {:induction false} FirstOfLines(s: string, lines: seq<string>)
    requires lines == HeaderLines(s)
    ensures lines[0] != "" ==> s != "" && s[0] == lines[0][0]
  {
  }

  lemma {:induction false} JoinedAscii(lines: seq<string>)
    requires lines != [] && AreLines(lines)
    ensures IsAscii(Joined(lines)) && Joined(lines) != ""
    ensures Joined(lines)[0] == lines[0][0]
  {
    if |lines| > 1 {
      JoinedAscii(lines[1..]);
      assert IsAscii(lines[0]) && IsAscii("\r\n");
    }
  }

  /** The bytes of s stand at the front of the buffer. */
  ghost predicate Fronts(s: string, buf: Bytes) {
    |s| <= |buf| && forall i :: 0 <= i < |s| ==> buf[i] == s[i] as int
  }

  lemma {:induction false} FrontsTail(a: string, t: string, buf: Bytes)
    requires Fronts(a + "\r\n" + t, buf)
    ensures Fronts(a, buf) && |a| + 2 <= |buf| && buf[|a|] == 13 && buf[|a| + 1] == 10
    ensures Fronts(t, buf[|a| + 2..])
  {
    var s := a + "\r\n" + t;
    assert forall i :: 0 <= i < |a| ==> s[i] == a[i];
    assert s[|a|] == '\r' && s[|a| + 1] == '\n';
    assert forall i :: 0 <= i < |t| ==> s[|a| + 2 + i] == t[i];
  }

  /** No blank line begins inside the header lines. */
  lemma {:induction false} NoBlankLine(lines: seq<string>, buf: Bytes, j: nat)
    requires lines != [] && AreLines(lines)
    requires Fronts(Joined(lines), buf) && j < |Joined(lines)|
    ensures !SeparatorAt(buf, j)
    decreases |lines|
  {
    if |lines| > 1 {
      var n, t := |lines[0]|, Joined(lines[1..]);
      FrontsTail(lines[0], t, buf);
      JoinedAscii(lines[1..]);
      if j == n {
        assert buf[n + 2..][0] == buf[n + 2] == lines[1][0] as int;
      } else if j >= n + 2 {
        NoBlankLine(lines[1..], buf[n + 2..], j - n - 2);
      }
    }
  }

  /** The first blank line is the one that ends the header. */
  lemma {:induction false} BlankLineFound(lines: seq<string>, rest: Bytes)
    requires lines != [] && AreLines(lines)
    requires IsAscii(Joined(lines))
    ensures var header := AsciiBytes(Joined(lines));
            FindSeparator(header + SEPARATOR + rest, 0) == Some(|header|)
            && (header + SEPARATOR + rest)[..|header|] == header
  {
    var header := AsciiBytes(Joined(lines));
    var buf := header + SEPARATOR + rest;
    assert Fronts(Joined(lines), buf);
    forall j | 0 <= j < |header| ensures !SeparatorAt(buf, j) {
      NoBlankLine(lines, buf, j);
    }
    assert SeparatorAt(buf, |header|);
    assert FindSeparator(buf, 0).value == |header|;
  }

  // ---- length fields

  predicate AreBlanks(s: string) {
    forall i :: 0 <= i < |s| ==> s[i] == ' ' || s[i] == '\t'
  }

  /** A length field: its name in any letter case, and blanks around the number (section 5 of RFC 9112). */
  ghost predicate IsLengthLine(line: string, n: nat) {
    exists name, before, after :: LengthLine(line, name, before, n, after)
  }

  predicate LengthLine(line: string, name: string, before: string, n: nat, after: string) {
    && Lower(name) == "content-length" && AreBlanks(before) && AreBlanks(after)
    && line == name + ":" + (before + (Decimal(n) + after))
  }

  lemma {:induction false} NameThenColon(name: string, rest: string)
    requires Lower(name) == "content-length"
    ensures var line := name + ":" + rest;
            IsLengthField(line) && Lead(NotColon, line) == 14 && line[15..] == rest
  {
    var line := name + ":" + rest;
    forall j | 0 <= j < 14 ensures NotColon(line[j]) {
      assert LowerChar(line[j]) == Lower(name)[j];
    }
    LeadIs(NotColon, line, 14);
    assert Lower(line)[..15] == LENGTH_FIELD;
  }

  lemma {:induction false} NumberBetweenBlanks(before: string, n: nat, after: string)
    requires AreBlanks(before) && AreBlanks(after)
    ensures Strip(IsBlank, before + (Decimal(n) + after)) == Decimal(n)
  {
    var digits := Decimal(n);
    var value := before + (digits + after);
    assert IsDigitChar(digits[0]) && IsDigitChar(digits[|digits| - 1]);
    assert value[|before|] == digits[0];
    LeadIs(IsBlank, value, |before|);
    var t := value[|before|..];
    assert t == digits + after;
    assert TrimEnd(IsBlank, t, |t|) == |digits| by {
      assert t[|digits| - 1] == digits[|digits| - 1];
      assert forall j :: |digits| <= j < |t| ==> t[j] == after[j - |digits|];
    }
    assert t[..|digits|] == digits;
  }

  lemma {:induction false} LengthLineRead(line: string, n: nat)
    requires n < INT_LIMIT && IsLengthLine(line, n)
    ensures IsLengthField(line) && LengthValue(line) == n
  {
    var name, before, after :| LengthLine(line, name, before, n, after);
    NameThenColon(name, before + (Decimal(n) + after));
    NumberBetweenBlanks(before, n, after);
    ReadIntDecimal(n);
  }

  /** The fields announce a body of n bytes: the last length field says n, or there is none and n is zero. */
  ghost predicate Announce(fields: seq<string>, n: nat) {
    if fields == [] then n == 0
    else
      var last := fields[|fields| - 1];
      if IsLengthField(last) then IsLengthLine(last, n) else Announce(fields[..|fields| - 1], n)
  }

  lemma {:induction false} AnnouncedLength(fields: seq<string>, n: nat)
    requires n < INT_LIMIT && Announce(fields, n)
    ensures ContentLength(fields) == n
  {
    if fields != [] {
      var last := fields[|fields| - 1];
      if IsLengthField(last) {
        LengthLineRead(last, n);
      } else {
        AnnouncedLength(fields[..|fields| - 1], n);
      }
    }
  }

  /** A length field that holds no number counts as zero. */
  lemma {:induction false} NoNumberIsZero(name: string, value: string)
    requires Lower(name) == "content-length" && ReadInt(Strip(IsBlank, value)).None?
    ensures IsLengthField(name + ":" + value) && LengthValue(name + ":" + value) == 0
  {
    NameThenColon(name, value);
  }

  /** Only a field with that name is a length field. */
  lemma {:induction false} OnlyLengthFields(name: string, value: string)
    requires ':' !in name
    ensures IsLengthField(name + ":" + value) <==> Lower(name) == "content-length"
  {
    var line := name + ":" + value;
    var n := |name|;
    assert line[n] == ':' && forall i :: 0 <= i < n ==> line[i] == name[i] != ':';
    if IsLengthField(line) {
      assert forall i :: 0 <= i < 15 ==> Lower(line)[i] == LENGTH_FIELD[i];
      assert Lower(line)[14] == ':' && line[14] == ':';
      assert n < 15 ==> Lower(line)[n] == ':';
      assert n == 14;
      assert Lower(name) == LENGTH_FIELD[..14];
    }
    if Lower(name) == "content-length" {
      NameThenColon(name, value);
    }
  }

  /** A header that cannot be read never makes a request, whatever follows; at the end of the stream it is refused. */
  lemma {:induction false} UnreadableHead(read: HeadReader, buf: Bytes, more: Bytes)
    requires FindSeparator(buf, 0).Some? && read(buf[..FindSeparator(buf, 0).value]).None?
    ensures Parsed(read, buf + more).None?
    ensures Outcome(read, buf + more, true) == Rejected
  {
    SeparatorStays(buf, more);
    SliceStays(buf, more, 0, FindSeparator(buf, 0).value);
  }

  /** A header is read exactly when it is text whose first line has two words; these are the verb and the path. */
  lemma {:induction false} WhatIsRead(decode: Decoder, header: Bytes)
    ensures ParseHead(decode, header).Some? <==>
              decode(header).Some? && |Pieces(HeaderLines(decode(header).value)[0], ' ')| >= 2
    ensures ParseHead(decode, header).Some? ==>
              var words := Pieces(HeaderLines(decode(header).value)[0], ' ');
              ParseHead(decode, header).value.verb == words[0] && ParseHead(decode, header).value.path == words[1]
  {
  }

  /** A negative length asks for no body. */
  lemma {:induction false} NegativeLength(head: Head, buf: Bytes, start: nat)
    requires start <= |buf| && head.contentLength <= 0
    ensures WithBody(head, buf, start) == Some(Request(head.verb, head.path, []))
  {
  }

  // ---- whole requests

  /** The verb, the path and whatever words follow, such as the version. */
  function RequestLine(verb: string, path: string, more: seq<string>): string {
    Join([verb, path] + more, ' ')
  }

  predicate AreWords(words: seq<string>) {
    forall i :: 0 <= i < |words| ==> IsPiece(words[i], ' ') && IsPlain(words[i])
  }

  lemma {:induction false} JoinPlain(ps: seq<string>)
    requires forall i :: 0 <= i < |ps| ==> IsPlain(ps[i])
    ensures IsPlain(Join(ps, ' '))
  {
    if |ps| > 1 {
      JoinPlain(ps[1..]);
      assert IsPlain(ps[0]) && IsPlain([' ']);
    }
  }

  lemma {:induction false} RequestLineParts(verb: string, path: string, more: seq<string>)
    requires AreWords([verb, path] + more)
    ensures IsPlain(RequestLine(verb, path, more)) && RequestLine(verb, path, more) != ""
    ensures Pieces(RequestLine(verb, path, more), ' ') == [verb, path] + more
  {
    assert ([verb, path] + more)[0] == verb;
    JoinPlain([verb, path] + more);
    PiecesJoin([verb, path] + more, ' ');
  }

  /** What a client sends before the blank line: the request line and any header fields (section 2.1 of RFC 9112). */
  function HeaderText(verb: string, path: string, more: seq<string>, fields: seq<string>): string {
    Joined([RequestLine(verb, path, more)] + fields)
  }

  lemma {:induction false} HeaderTextLines(verb: string, path: string, more: seq<string>, fields: seq<string>)
    requires AreWords([verb, path] + more) && AreLines(fields)
    ensures AreLines([RequestLine(verb, path, more)] + fields)
    ensures IsAscii(HeaderText(verb, path, more, fields))
    ensures HeaderLines(HeaderText(verb, path, more, fields)) == [RequestLine(verb, path, more)] + fields
  {
    RequestLineParts(verb, path, more);
    JoinedLines([RequestLine(verb, path, more)] + fields);
    JoinedAscii([RequestLine(verb, path, more)] + fields);
  }

  lemma {:induction false} HeadParsed(decode: Decoder, verb: string, path: string, more: seq<string>, fields: seq<string>, n: nat)
    requires DecodesAscii(decode)
    requires AreWords([verb, path] + more) && AreLines(fields)
    requires n < INT_LIMIT && Announce(fields, n)
    requires IsAscii(HeaderText(verb, path, more, fields))
    ensures ParseHead(decode, AsciiBytes(HeaderText(verb, path, more, fields))) == Some(Head(verb, path, n))
  {
    RequestLineParts(verb, path, more);
    HeaderTextLines(verb, path, more, fields);
    AnnouncedLength(fields, n);
    assert ([RequestLine(verb, path, more)] + fields)[1..] == fields;
  }

  lemma {:induction false} ParsedAfter(read: HeadReader, header: Bytes, head: Head, bytes: Bytes)
    requires var buf := header + SEPARATOR + bytes;
             FindSeparator(buf, 0) == Some(|header|) && buf[..|header|] == header
    requires read(header) == Some(head) && head.contentLength >= 0
    ensures Parsed(read, header + SEPARATOR + bytes) ==
            if |bytes| < head.contentLength then None
            else Some(Request(head.verb, head.path, bytes[..head.contentLength]))
  {
    BodySlice(header, bytes, head.contentLength);
  }

  lemma {:induction false} BodySlice(header: Bytes, bytes: Bytes, n: nat)
    ensures |header + SEPARATOR + bytes| == |header| + 4 + |bytes|
    ensures n <= |bytes| ==> (header + SEPARATOR + bytes)[|header| + 4..|header| + 4 + n] == bytes[..n]
  {
  }

  /**
   A request with any header fields, of which the last length field, if there is one, gives
   the size of its body, is recognised for what it is as soon as it is complete, whatever
   bytes follow it, and not before its last byte has arrived.
   */
  lemma {:induction false} RequestRecognised(decode: Decoder, verb: string, path: string, more: seq<string>, fields: seq<string>, body: Bytes, arrived: Bytes)
    requires DecodesAscii(decode)
    requires AreWords([verb, path] + more) && AreLines(fields)
    requires |body| < INT_LIMIT && Announce(fields, |body|)
    requires arrived <= body || body <= arrived
    ensures IsAscii(HeaderText(verb, path, more, fields))
    ensures Parsed(Reader(decode), AsciiBytes(HeaderText(verb, path, more, fields)) + SEPARATOR + arrived)
         == if body <= arrived then Some(Request(verb, path, body)) else None
  {
    HeaderTextLines(verb, path, more, fields);
    BlankLineFound([RequestLine(verb, path, more)] + fields, arrived);
    HeadParsed(decode, verb, path, more, fields, |body|);
    ParsedAfter(Reader(decode), AsciiBytes(HeaderText(verb, path, more, fields)), Head(verb, path, |body|), arrived);
    if body <= arrived {
      assert arrived[..|body|] == body;
    }
  }
}
