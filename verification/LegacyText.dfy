/** The text inside legacy frames: building requests, and reading them back on either side. */
module LegacyText {
  import opened Bytes
  import opened Text
  import opened LegacyFrame
  import LegacyPeer

  /** The UTF-8 codec. */
  datatype Utf8 = Utf8(encode: string -> ByteString, decode: ByteString -> string)

  /** Strings survive the codec, which encodes them character by character. */
  ghost predicate Faithful(utf8: Utf8) {
    && (forall s :: utf8.decode(utf8.encode(s)) == s)
    && (forall s, t :: utf8.encode(s + t) == utf8.encode(s) + utf8.encode(t))
  }

  const CRLF := "\r\n"
  const BLANK_LINE := "\r\n\r\n"

  /** The header lines after the status line, without the final blank line. */
  function Fields(contentLength: nat, ack: nat): seq<string> {
    ["ContentType=json", "ContentLength=" + Decimal(contentLength), "AckNumber=" + Decimal(ack)]
  }

  /** The text of one request; `contentLength` counts bytes. */
  function RequestText(state: string, command: string, content: string, version: string, contentLength: nat, ack: nat): string {
    var fields := Fields(contentLength, ack);
    state + " " + command + " " + version + CRLF
    + fields[0] + CRLF + fields[1] + CRLF + fields[2] + CRLF + CRLF + content
  }

  method BuildFrame(utf8: Utf8, state: string, command: string, content: string, version: string, ack: nat)
    returns (frame: Result<ByteString, RequestTooLong>)
    ensures var text := utf8.encode(RequestText(state, command, content, version, |utf8.encode(content)|, ack));
            if |text| + FRAMING_OVERHEAD < 0x1_0000 then frame == Ok(Framed(text)) else frame == Err(RequestTooLong(|text|))
  {
    frame := Wrap(utf8.encode(RequestText(state, command, content, version, |utf8.encode(content)|, ack)));
  }

  // ----- Splitting.

  function SplitOnce(s: string, separator: string): Option<(string, string)> {
    var at := Find(s, separator);
    if at.None? then None else Some((s[..at.value], s[at.value + |separator|..]))
  }

  function FirstLine(s: string): string {
    var at := Find(s, CRLF);
    if at.None? then s else s[..at.value]
  }

  function TakeWord(s: string): string {
    if s == "" || IsWhitespace(s[0]) then "" else [s[0]] + TakeWord(s[1..])
  }

  /** The first whitespace-separated word, empty if there is none, and what follows it. */
  function NextWord(s: string): (string, string)
  {
    var start := TrimStart(s);
    var word := TakeWord(start);
    TakeWordLength(start);
    (word, start[|word|..])
  }

  lemma {:induction false} TakeWordLength(s: string)
    ensures |TakeWord(s)| <= |s|
  {
    if s != "" {
      TakeWordLength(s[1..]);
    }
  }

  datatype Response = Response(
    raw: string, body: string, version: string, status: string, checksumOk: bool, lengthOk: bool)

  /** Decodes one whole frame, delimiters included. */
  function ParseResponse(utf8: Utf8, frame: ByteString): Option<Response> {
    var contents := Opened(frame);
    if contents.None? then None
    else
      var raw := utf8.decode(contents.value.text);
      var split := SplitOnce(raw, BLANK_LINE);
      if split.None? then Some(Response(raw, "", "", "", contents.value.checksumOk, contents.value.lengthOk))
      else
        var (headers, body) := split.value;
        var (version, rest) := NextWord(FirstLine(headers));
        Some(Response(raw, body, version, NextWord(rest).0, contents.value.checksumOk, contents.value.lengthOk))
  }

  // ----- The peer's reader.

  datatype Request = Request(method_: string, command: string, body: string, wellFormed: bool)

  function StripPrefix(s: string, prefix: string): Option<string> {
    if prefix <= s then Some(s[|prefix|..]) else None
  }

  function FindField(lines: seq<string>, prefix: string): Option<string> {
    if lines == [] then None
    else if StripPrefix(lines[0], prefix).Some? then StripPrefix(lines[0], prefix)
    else FindField(lines[1..], prefix)
  }

  predicate IsDigits(s: string) {
    s != "" && forall i :: 0 <= i < |s| ==> '0' <= s[i] <= '9'
  }

  /** Parsing a 64-bit unsigned number; a leading plus sign is accepted. */
  function ParseUsize(s: string): Option<nat> {
    var digits := if s != "" && s[0] == '+' then s[1..] else s;
    if IsDigits(digits) && Undecimal(digits) < 0x1_0000_0000_0000_0000 then Some(Undecimal(digits)) else None
  }

  function ParseRequest(utf8: Utf8, raw: ByteString): Option<Request> {
    var contents := Inspect(raw);
    if contents.None? then None
    else
      var split := SplitOnce(utf8.decode(contents.value.text), BLANK_LINE);
      if split.None? then None
      else
        var (head, body) := split.value;
        var lines := SplitAll(head, CRLF);
        var words := SplitAll(lines[0], " ");
        if |words| < 2 then None
        else
          var field := FindField(lines[1..], "ContentLength=");
          var length := if field.None? then None else ParseUsize(field.value);
          Some(Request(words[0], words[1], body,
            contents.value.checksumOk && contents.value.lengthOk && length == Some(|utf8.encode(body)|)))
  }

  // ----- Reading a built request back.

  predicate IsWord(s: string) {
    s != "" && forall i :: 0 <= i < |s| ==> !IsWhitespace(s[i])
  }

  lemma FindIs(whole: string, part: string, at: nat)
    requires OccursAt(whole, part, at) && forall k: nat :: k < at ==> !OccursAt(whole, part, k)
    ensures Find(whole, part) == Some(at)
  {
  }

  /** A line without a carriage return, followed by another line, holds no blank line. */
  lemma BlankLineAfter(line: string, rest: string)
    requires '\r' !in line && rest != "" && rest[0] != '\r'
    ensures Find(line + CRLF + rest, BLANK_LINE) ==
            var at := Find(rest, BLANK_LINE); if at.None? then None else Some(|line| + 2 + at.value)
  {
    var whole := line + CRLF + rest;
    var skip := |line| + 2;
    forall k: nat | k < skip ensures !OccursAt(whole, BLANK_LINE, k) {
      NotHere(whole, BLANK_LINE, k, if k == |line| then 2 else 0);
    }
    assert whole[skip..] == rest;
    FindInTail(whole, BLANK_LINE, skip);
    var at := Find(rest, BLANK_LINE);
    if at.Some? {
      FindIs(whole, BLANK_LINE, skip + at.value);
    }
  }

  /** A separator directly after a piece that lacks its first character is found there. */
  lemma SeparatorHere(piece: string, separator: string, rest: string)
    requires separator != "" && separator[0] !in piece
    ensures Find(piece + separator + rest, separator) == Some(|piece|)
  {
    var whole := piece + separator + rest;
    assert whole[|piece|..|piece| + |separator|] == separator;
    forall k: nat | k < |piece| ensures !OccursAt(whole, separator, k) {
      NotHere(whole, separator, k, 0);
    }
    FindIs(whole, separator, |piece|);
  }

  lemma FieldsAreLines(contentLength: nat, ack: nat)
    ensures var fields := Fields(contentLength, ack);
            && |fields| == 3
            && (forall i :: 0 <= i < 3 ==> fields[i] != "" && fields[i][0] in {'A', 'C'} && '\r' !in fields[i])
  {
  }

  /** The tail of a request, after its status line: the first blank line ends the header. */
  function HeaderTail(contentLength: nat, ack: nat): string {
    var fields := Fields(contentLength, ack);
    fields[0] + CRLF + (fields[1] + CRLF + (fields[2] + BLANK_LINE))
  }

  lemma TailEndsHeader(contentLength: nat, ack: nat, content: string)
    ensures var tail := HeaderTail(contentLength, ack);
            Find(tail + content, BLANK_LINE) == Some(|tail| - 4) && tail[0] == 'C'
  {
    hide Fields;
    var fields := Fields(contentLength, ack);
    FieldsAreLines(contentLength, ack);
    SeparatorHere(fields[2], BLANK_LINE, content);
    var last := fields[2] + BLANK_LINE + content;
    BlankLineAfter(fields[1], last);
    var middle := fields[1] + CRLF + last;
    BlankLineAfter(fields[0], middle);
    assert HeaderTail(contentLength, ack) + content == fields[0] + CRLF + middle;
    FirstFieldStarts(contentLength, ack);
  }

  lemma FirstFieldStarts(contentLength: nat, ack: nat)
    ensures Fields(contentLength, ack)[0][0] == 'C'
  {
  }

  lemma TextSplits(state: string, command: string, content: string, version: string, contentLength: nat, ack: nat)
    ensures RequestText(state, command, content, version, contentLength, ack)
            == (state + " " + command + " ") + (version + CRLF) + (HeaderTail(contentLength, ack) + content)
  {
  }

  /** A blank line cannot begin in text without a carriage return, nor reach into a tail that begins with a letter. */
  lemma BlankLineInside(start: string, middle: string, tail: string, k: nat)
    requires '\r' !in start && tail != "" && tail[0] == 'C'
    requires k < |start| + |middle| && OccursAt(start + middle + tail, BLANK_LINE, k)
    ensures |start| <= k && OccursAt(middle, BLANK_LINE, k - |start|)
  {
    var whole := start + middle + tail;
    var edge := |start| + |middle|;
    if k < |start| {
      NotHere(whole, BLANK_LINE, k, 0);
    } else if k + 4 > edge {
      assert whole[edge] == tail[0];
      NotHere(whole, BLANK_LINE, k, edge - k);
    } else {
      assert whole[k..k + 4] == middle[k - |start|..k - |start| + 4];
    }
  }

  lemma OccursInside(start: string, middle: string, tail: string, part: string, k: nat)
    requires OccursAt(middle, part, k)
    ensures OccursAt(start + middle + tail, part, |start| + k)
  {
    assert middle[k..k + |part|] == (start + middle + tail)[|start| + k..|start| + k + |part|];
  }

  /** Where the header of a request ends: at its own blank line, unless the version brings one of its own. */
  lemma HeaderEnd(start: string, version: string, tail: string)
    requires '\r' !in start
    requires tail != "" && tail[0] == 'C' && Find(tail, BLANK_LINE).Some?
    ensures Find(start + (version + CRLF) + tail, BLANK_LINE) ==
            var own := Find(version + CRLF, BLANK_LINE);
            if own.Some? then Some(|start| + own.value)
            else Some(|start| + |version| + 2 + Find(tail, BLANK_LINE).value)
  {
    hide Find;
    var middle := version + CRLF;
    var whole := start + middle + tail;
    var edge := |start| + |middle|;
    var own := Find(middle, BLANK_LINE);
    forall k: nat | k < edge && OccursAt(whole, BLANK_LINE, k)
      ensures own.Some? && |start| + own.value <= k
    {
      BlankLineInside(start, middle, tail, k);
    }
    if own.Some? {
      OccursInside(start, middle, tail, BLANK_LINE, own.value);
      FindIs(whole, BLANK_LINE, |start| + own.value);
    } else {
      assert whole[edge..] == tail;
      FindInTail(whole, BLANK_LINE, edge);
      FindIs(whole, BLANK_LINE, edge + Find(tail, BLANK_LINE).value);
    }
  }

  lemma {:induction false} TakeWordIs(word: string, rest: string)
    requires forall i :: 0 <= i < |word| ==> !IsWhitespace(word[i])
    requires rest == "" || IsWhitespace(rest[0])
    ensures TakeWord(word + rest) == word
  {
    if word == "" {
      assert word + rest == rest;
    } else {
      assert (word + rest)[1..] == word[1..] + rest;
      TakeWordIs(word[1..], rest);
    }
  }

  lemma NextWordIs(word: string, rest: string)
    requires IsWord(word) && (rest == "" || IsWhitespace(rest[0]))
    ensures NextWord(word + rest) == (word, rest)
    ensures NextWord(" " + word + rest).0 == word
  {
    TakeWordIs(word, rest);
    assert (word + rest)[|word|..] == rest;
    assert (" " + word + rest)[1..] == word + rest;
  }

  /** The status line of a request starts with its method and command, whatever the version holds. */
  lemma StatusLine(state: string, command: string, more: string)
    requires IsWord(state) && IsWord(command)
    ensures var (first, rest) := NextWord(FirstLine(state + " " + command + " " + more));
            first == state && NextWord(rest).0 == command
  {
    var start := state + " " + command + " ";
    var s := start + more;
    assert forall i :: 0 <= i < |start| ==> start[i] != '\r';
    forall k: nat | k < |start| ensures !OccursAt(s, CRLF, k) {
      NotHere(s, CRLF, k, 0);
    }
    var line := FirstLine(s);
    var tail := line[|start|..];
    assert line == state + (" " + command + (" " + tail));
    NextWordIs(state, " " + command + (" " + tail));
    NextWordIs(command, " " + tail);
  }

  /**
   * A built request is read back with its own method and command, length and checksum good; its
   * body is the content exactly when the version and the line end after it hold no blank line.
   */
  lemma RequestReadsBack(utf8: Utf8, state: string, command: string, content: string, version: string, ack: nat)
    requires Faithful(utf8) && IsWord(state) && IsWord(command)
    requires |utf8.encode(RequestText(state, command, content, version, |utf8.encode(content)|, ack))| + FRAMING_OVERHEAD < 0x1_0000
    ensures var text := RequestText(state, command, content, version, |utf8.encode(content)|, ack);
            var read := ParseResponse(utf8, Framed(utf8.encode(text)));
            && read.Some? && read.value.raw == text && read.value.checksumOk && read.value.lengthOk
            && read.value.version == state && read.value.status == command
            && (read.value.body == content <==> Find(version + CRLF, BLANK_LINE).None?)
  {
    hide Framed, Opened, RequestText, HeaderTail, NextWord, FirstLine;
    var length := |utf8.encode(content)|;
    var text := RequestText(state, command, content, version, length, ack);
    LegacyPeer.CodecsReadEachOther(utf8.encode(text));
    assert utf8.decode(utf8.encode(text)) == text;
    var start, tail := state + " " + command + " ", HeaderTail(length, ack);
    assert forall i :: 0 <= i < |start| ==> start[i] != '\r';
    TextSplits(state, command, content, version, length, ack);
    TailEndsHeader(length, ack, content);
    HeaderEnd(start, version, tail + content);
    var at := Find(text, BLANK_LINE).value;
    assert text[..at] == state + " " + command + " " + text[|start|..at];
    StatusLine(state, command, text[|start|..at]);
    if Find(version + CRLF, BLANK_LINE).None? {
      assert text[at + 4..] == content;
    } else {
      assert |text[at + 4..]| > |content|;
    }
  }

  lemma SplitPiece(piece: string, separator: string, rest: string)
    requires separator != "" && separator[0] !in piece
    ensures SplitAll(piece + separator + rest, separator) == [piece] + SplitAll(rest, separator)
    ensures SplitAll(piece, separator) == [piece]
  {
    SeparatorHere(piece, separator, rest);
    NoSeparator(piece, separator);
    var whole := piece + separator + rest;
    assert whole[|piece| + |separator|..] == rest;
    assert whole[..|piece|] == piece;
  }

  lemma DecimalParses(n: nat)
    requires n < 0x1_0000_0000_0000_0000
    ensures ParseUsize(Decimal(n)) == Some(n)
  {
    DecimalReadsBack(n);
  }

  lemma ContentLengthFound(contentLength: nat, ack: nat)
    ensures FindField(Fields(contentLength, ack), "ContentLength=") == Some(Decimal(contentLength))
  {
    var fields := Fields(contentLength, ack);
    assert !("ContentLength=" <= fields[0]) by {
      assert fields[0][7] == 'T';
    }
    assert fields[1][|"ContentLength="|..] == Decimal(contentLength);
    assert fields[1..][0] == fields[1];
  }

  // ----- What the version adds to the header.

  /** The part of the version that stays in the header. */
  function HeaderPart(version: string): string {
    var own := Find(version + CRLF, BLANK_LINE);
    if own.None? then version else version[..own.value]
  }

  /** The header lines the version brings. */
  function Injected(version: string): seq<string> {
    SplitAll(HeaderPart(version), CRLF)[1..]
  }

  /** The length the header declares: that of the first such line. */
  function Declared(version: string, contentLength: nat, ack: nat): Option<nat> {
    var own := if Find(version + CRLF, BLANK_LINE).None? then Fields(contentLength, ack) else [];
    var field := FindField(Injected(version) + own, "ContentLength=");
    if field.None? then None else ParseUsize(field.value)
  }

  /** What the peer takes for the body: all that follows the first blank line, the version's own if it brings one. */
  function BodyRead(version: string, contentLength: nat, ack: nat, content: string): string {
    var own := Find(version + CRLF, BLANK_LINE);
    if own.None? then content else (version + CRLF + HeaderTail(contentLength, ack) + content)[own.value + 4..]
  }

  /** A line end overlaps no other, so the first one of a concatenation is the first part's, or the one between. */
  lemma FirstLineEnd(a: string, b: string)
    ensures var at := Find(a, CRLF); Find(a + CRLF + b, CRLF) == Some(if at.None? then |a| else at.value)
  {
    hide Find;
    var whole, at := a + CRLF + b, Find(a, CRLF);
    var end := if at.None? then |a| else at.value;
    assert whole[end..end + 2] == CRLF;
    forall k: nat | k < end ensures !OccursAt(whole, CRLF, k) {
      if k + 2 <= |a| {
        assert whole[k..k + 2] == a[k..k + 2];
        assert !OccursAt(a, CRLF, k);
      } else {
        NotHere(whole, CRLF, k, 1);
      }
    }
    FindIs(whole, CRLF, end);
  }

  /** So splitting a concatenation splits its parts. */
  lemma {:induction false} SplitConcat(a: string, b: string)
    ensures SplitAll(a + CRLF + b, CRLF) == SplitAll(a, CRLF) + SplitAll(b, CRLF)
    decreases |a|
  {
    hide Find;
    var whole, at := a + CRLF + b, Find(a, CRLF);
    FirstLineEnd(a, b);
    if at.None? {
      assert whole[..|a|] == a && whole[|a| + 2..] == b;
    } else {
      var rest := a[at.value + 2..];
      assert whole[..at.value] == a[..at.value] && whole[at.value + 2..] == rest + CRLF + b;
      SplitConcat(rest, b);
    }
  }

  /** Text without a carriage return only lengthens the first line. */
  lemma SplitBehind(start: string, s: string)
    requires '\r' !in start
    ensures SplitAll(start + s, CRLF) == [start + SplitAll(s, CRLF)[0]] + SplitAll(s, CRLF)[1..]
  {
    hide Find;
    var whole, at := start + s, Find(s, CRLF);
    FirstLineEndBehind(start, s);
    if at.Some? {
      assert whole[..|start| + at.value] == start + s[..at.value];
      assert whole[|start| + at.value + 2..] == s[at.value + 2..];
    }
  }

  lemma FirstLineEndBehind(start: string, s: string)
    requires '\r' !in start
    ensures var at := Find(s, CRLF); Find(start + s, CRLF) == if at.None? then None else Some(|start| + at.value)
  {
    hide Find;
    var whole, at := start + s, Find(s, CRLF);
    assert whole[|start|..] == s;
    FindInTail(whole, CRLF, |start|);
    forall k: nat | k < |start| ensures !OccursAt(whole, CRLF, k) {
      NotHere(whole, CRLF, k, 0);
    }
    if at.Some? {
      FindIs(whole, CRLF, |start| + at.value);
    }
  }

  lemma {:induction false} FindFieldConcat(a: seq<string>, b: seq<string>, prefix: string)
    ensures FindField(a + b, prefix) == if FindField(a, prefix).Some? then FindField(a, prefix) else FindField(b, prefix)
    decreases |a|
  {
    if a == [] {
      assert a + b == b;
    } else {
      assert (a + b)[1..] == a[1..] + b;
      FindFieldConcat(a[1..], b, prefix);
    }
  }

  /**
   * The peer reads the same request with its own method and command, whatever the version holds. Its
   * body is what follows the first blank line, which is the content exactly when the version brings
   * none; and it is well formed exactly when the first length its header declares, the version's
   * lines first, is that of the body.
   */
  lemma PeerReadsRequest(utf8: Utf8, state: string, command: string, content: string, version: string, ack: nat)
    requires Faithful(utf8) && IsWord(state) && IsWord(command)
    requires |utf8.encode(RequestText(state, command, content, version, |utf8.encode(content)|, ack))| + FRAMING_OVERHEAD < 0x1_0000
    ensures var length := |utf8.encode(content)|;
            var text := RequestText(state, command, content, version, length, ack);
            var inner := Framed(utf8.encode(text))[1..|Framed(utf8.encode(text))| - 1];
            var read := ParseRequest(utf8, LegacyPeer.Unpaired(inner));
            && read.Some? && read.value.method_ == state && read.value.command == command
            && var body := BodyRead(version, length, ack, content);
               && read.value.body == body && (body == content <==> Find(version + CRLF, BLANK_LINE).None?)
               && (read.value.wellFormed <==> Declared(version, length, ack) == Some(|utf8.encode(body)|))
  {
    hide Framed, Opened, RequestText, LegacyPeer.Unpaired, Inspect, SplitAll, FindField, ParseUsize, Fields, Injected, Find, BodyRead;
    var length := |utf8.encode(content)|;
    var text := RequestText(state, command, content, version, length, ack);
    LegacyPeer.CodecsReadEachOther(utf8.encode(text));
    assert utf8.decode(utf8.encode(text)) == text;
    PeerHead(state, command, content, version, length, ack);
  }

  /** Without a blank line in the version, only a length it declares itself can spoil the request. */
  lemma DeclaredIff(version: string, contentLength: nat, ack: nat)
    requires contentLength < 0x1_0000_0000_0000_0000 && Find(version + CRLF, BLANK_LINE).None?
    ensures Declared(version, contentLength, ack) == Some(contentLength) <==>
            var field := FindField(Injected(version), "ContentLength=");
            field.None? || ParseUsize(field.value) == Some(contentLength)
  {
    hide Fields, Injected, ParseUsize, FindField;
    FindFieldConcat(Injected(version), Fields(contentLength, ack), "ContentLength=");
    ContentLengthFound(contentLength, ack);
    DecimalParses(contentLength);
  }

  /** A version on one line adds no header lines. */
  lemma PlainVersion(version: string)
    requires '\r' !in version
    ensures Find(version + CRLF, BLANK_LINE).None? && Injected(version) == []
  {
    NoBlankLineIn(version);
    NoSeparator(version, CRLF);
  }

  lemma PeerHead(state: string, command: string, content: string, version: string, length: nat, ack: nat)
    requires IsWord(state) && IsWord(command)
    ensures var split := SplitOnce(RequestText(state, command, content, version, length, ack), BLANK_LINE);
            var own := Find(version + CRLF, BLANK_LINE);
            && split.Some? && split.value.1 == BodyRead(version, length, ack, content)
            && (split.value.1 == content <==> own.None?)
            && var lines := SplitAll(split.value.0, CRLF);
               && lines[1..] == Injected(version) + (if own.None? then Fields(length, ack) else [])
               && var words := SplitAll(lines[0], " ");
                  |words| >= 2 && words[0] == state && words[1] == command
  {
    hide RequestText, HeaderTail, SplitAll, SplitOnce, Fields, Find, BodyRead;
    var start, tail, part := state + " " + command + " ", HeaderTail(length, ack), HeaderPart(version);
    PeerSplit(state, command, content, version, length, ack);
    SplitBehind(start, part);
    FirstWords(state, command, SplitAll(part, CRLF)[0]);
    if Find(version + CRLF, BLANK_LINE).None? {
      TailLines(length, ack);
      SplitConcat(start + part, tail[..|tail| - 4]);
    }
  }

  /** The peer's head ends at the version's own blank line, or at the header's. */
  lemma PeerSplit(state: string, command: string, content: string, version: string, length: nat, ack: nat)
    requires IsWord(state) && IsWord(command)
    ensures var split := SplitOnce(RequestText(state, command, content, version, length, ack), BLANK_LINE);
            var own := Find(version + CRLF, BLANK_LINE);
            var front, tail := state + " " + command + " " + HeaderPart(version), HeaderTail(length, ack);
            && '\r' !in state + " " + command + " " && |tail| >= 4
            && split.Some? && split.value.1 == BodyRead(version, length, ack, content)
            && (split.value.1 == content <==> own.None?)
            && split.value.0 == if own.None? then front + CRLF + tail[..|tail| - 4] else front
  {
    hide RequestText, HeaderTail, Find, IsWord;
    var start, tail := state + " " + command + " ", HeaderTail(length, ack);
    NoReturn(state, command);
    TextSplits(state, command, content, version, length, ack);
    TailEndsHeader(length, ack, content);
    HeaderEnd(start, version, tail + content);
    var own := Find(version + CRLF, BLANK_LINE);
    if own.None? {
      CutAtTail(start, version, tail, content);
    } else {
      CutInside(start, version + CRLF, tail, content, own.value);
      assert (version + CRLF)[..own.value] == version[..own.value];
    }
  }

  lemma NoReturn(state: string, command: string)
    requires IsWord(state) && IsWord(command)
    ensures '\r' !in state + " " + command + " "
  {
    var start := state + " " + command + " ";
    assert forall i :: 0 <= i < |start| ==> start[i] != '\r';
  }

  lemma CutAtTail(start: string, version: string, tail: string, content: string)
    requires |tail| >= 4
    ensures var text, at := start + (version + CRLF) + (tail + content), |start| + |version| + 2 + |tail| - 4;
      text[..at] == start + version + CRLF + tail[..|tail| - 4] && text[at + 4..] == content
  {
  }

  lemma CutInside(start: string, line: string, tail: string, content: string, k: nat)
    requires k + 4 <= |line|
    ensures var text, at := start + line + (tail + content), |start| + k;
      && text[..at] == start + line[..k] && text[at + 4..] == (line + tail + content)[k + 4..]
      && |text[at + 4..]| >= |tail| + |content|
  {
    assert start + line + (tail + content) == start + (line + tail + content);
  }

  lemma FirstWords(state: string, command: string, more: string)
    requires IsWord(state) && IsWord(command)
    ensures var words := SplitAll(state + " " + command + " " + more, " ");
            |words| >= 2 && words[0] == state && words[1] == command
  {
    hide SplitAll;
    assert state + " " + command + " " + more == state + " " + (command + " " + more);
    SplitPiece(state, " ", command + " " + more);
    SplitPiece(command, " ", more);
  }

  lemma NoBlankLineIn(version: string)
    requires '\r' !in version
    ensures Find(version + CRLF, BLANK_LINE).None?
  {
    var s := version + CRLF;
    forall k: nat ensures !OccursAt(s, BLANK_LINE, k) {
      NotHere(s, BLANK_LINE, k, if k < |version| then 0 else if k == |version| then 2 else 0);
    }
  }

  lemma TailLines(length: nat, ack: nat)
    ensures var tail := HeaderTail(length, ack);
            |tail| >= 4 && SplitAll(tail[..|tail| - 4], CRLF) == Fields(length, ack)
  {
    hide Fields, SplitAll;
    FieldsAreLines(length, ack);
    var fields, tail := Fields(length, ack), HeaderTail(length, ack);
    assert tail[..|tail| - 4] == fields[0] + CRLF + (fields[1] + CRLF + fields[2]);
    SplitPiece(fields[2], CRLF, "");
    SplitPiece(fields[1], CRLF, fields[2]);
    SplitPiece(fields[0], CRLF, fields[1] + CRLF + fields[2]);
    assert fields == [fields[0]] + ([fields[1]] + [fields[2]]);
  }

  // ----- What a request's header says.

  /** With a version on one line the header is the status line and three fields, which declare the content's length and the number to acknowledge. */
  lemma HeaderSays(state: string, command: string, content: string, version: string, contentLength: nat, ack: nat)
    requires IsWord(state) && IsWord(command) && '\r' !in version
    ensures var text := RequestText(state, command, content, version, contentLength, ack);
      var split := SplitOnce(text, BLANK_LINE);
      && split.Some? && split.value.1 == content
      && var lines := SplitAll(split.value.0, CRLF);
         && |lines| == 4
         && lines[0] == state + " " + command + " " + version
         && lines[1] == "ContentType=json"
         && StripPrefix(lines[2], "ContentLength=") == Some(Decimal(contentLength))
         && Undecimal(Decimal(contentLength)) == contentLength
         && StripPrefix(lines[3], "AckNumber=") == Some(Decimal(ack)) && Undecimal(Decimal(ack)) == ack
  {
    hide RequestText, HeaderTail, SplitAll, Find;
    var text := RequestText(state, command, content, version, contentLength, ack);
    var start, tail := state + " " + command + " ", HeaderTail(contentLength, ack);
    assert forall i :: 0 <= i < |start| ==> start[i] != '\r';
    TextSplits(state, command, content, version, contentLength, ack);
    TailEndsHeader(contentLength, ack, content);
    HeaderEnd(start, version, tail + content);
    NoBlankLineIn(version);
    var at := Find(text, BLANK_LINE).value;
    assert text[at + 4..] == content;
    assert text[..at] == start + version + CRLF + tail[..|tail| - 4];
    TailLines(contentLength, ack);
    SplitPiece(start + version, CRLF, tail[..|tail| - 4]);
    DecimalReadsBack(contentLength);
    DecimalReadsBack(ack);
    FieldsSay(contentLength, ack);
  }

  lemma FieldsSay(contentLength: nat, ack: nat)
    ensures var fields := Fields(contentLength, ack);
      && |fields| == 3 && fields[0] == "ContentType=json"
      && StripPrefix(fields[1], "ContentLength=") == Some(Decimal(contentLength))
      && StripPrefix(fields[2], "AckNumber=") == Some(Decimal(ack))
  {
    var fields := Fields(contentLength, ack);
    assert fields[1][|"ContentLength="|..] == Decimal(contentLength);
    assert fields[2][|"AckNumber="|..] == Decimal(ack);
  }

  // ----- Numbers and frames that are not requests.

  /** A number is read back from its digits, with a plus sign or without, exactly when it fits 64 bits; no digits are no number. */
  lemma UsizeReads(n: nat)
    ensures var read := if n < 0x1_0000_0000_0000_0000 then Some(n) else None;
      ParseUsize(Decimal(n)) == read && ParseUsize("+" + Decimal(n)) == read
    ensures ParseUsize("").None? && ParseUsize("+").None?
  {
    DecimalReadsBack(n);
    assert ("+" + Decimal(n))[1..] == Decimal(n);
  }

  /** A header's field is what follows its name in the first line that begins with it. */
  lemma {:induction false} FieldFoundFirst(lines: seq<string>, prefix: string) returns (k: nat)
    ensures k <= |lines| && forall i :: 0 <= i < k ==> !(prefix <= lines[i])
    ensures FindField(lines, prefix).None? ==> k == |lines|
    ensures FindField(lines, prefix).Some? ==> k < |lines| && lines[k] == prefix + FindField(lines, prefix).value
  {
    k := 0;
    if lines != [] && !(prefix <= lines[0]) {
      k := FieldFoundFirst(lines[1..], prefix);
      k := k + 1;
    }
  }

  /** A reply's version and status are the first two words of its first line and no other. */
  lemma ResponseReads(utf8: Utf8, frame: ByteString, line: string, rest: string, version: string, status: string)
    requires Opened(frame).Some? && utf8.decode(Opened(frame).value.text) == line + CRLF + rest
    requires Find(line + CRLF + rest, BLANK_LINE).Some? && '\r' !in line && '\n' !in line
    requires IsWord(version) && (line == version || (line == version + " " + status && IsWord(status)))
    ensures var read := ParseResponse(utf8, frame);
      && read.Some? && read.value.version == version && read.value.status == if line == version then "" else status
  {
    hide Find, Opened, IsWord, FirstLine, NextWord, IsWhitespace;
    FirstLineAlone(line, rest);
    NextWordAlone(version);
    if line != version {
      SpaceSeparates();
      NextWordIs(version, " " + status);
      assert line == version + (" " + status);
      NextWordAlone(status);
    }
  }

  lemma SpaceSeparates()
    ensures IsWhitespace(' ')
  {
  }

  lemma NextWordAlone(word: string)
    requires IsWord(word)
    ensures NextWord(word) == (word, "") && NextWord("").0 == "" && NextWord(" " + word).0 == word
  {
    NextWordIs(word, "");
    assert word + "" == word && " " + word + "" == " " + word;
  }

  lemma FirstLineAlone(line: string, rest: string)
    requires '\r' !in line && Find(line + CRLF + rest, BLANK_LINE).Some?
    ensures FirstLine((line + CRLF + rest)[..Find(line + CRLF + rest, BLANK_LINE).value]) == line
  {
    hide Find;
    var text := line + CRLF + rest;
    var at := Find(text, BLANK_LINE).value;
    assert text[at..at + 4] == BLANK_LINE && text[at] == '\r';
    assert text[|line| + 1] == '\n';
    if at == |line| {
      assert text[..at] == line;
      NoLineEnd(line);
    } else {
      var more := text[|line| + 2..at];
      assert text[..at] == line + CRLF + more;
      NoLineEnd(line);
      FirstLineEnd(line, more);
    }
  }

  lemma NoLineEnd(line: string)
    requires '\r' !in line
    ensures Find(line, CRLF).None? && FirstLine(line) == line
  {
    forall k: nat ensures !OccursAt(line, CRLF, k) {
      NotHere(line, CRLF, k, 0);
    }
  }

  /** A frame without a blank line is still read, as raw text only. */
  lemma ResponseWithoutHeader(utf8: Utf8, frame: ByteString)
    requires Opened(frame).Some?
    ensures var contents := Opened(frame).value; var raw := utf8.decode(contents.text);
      (forall k: nat :: !OccursAt(raw, BLANK_LINE, k)) ==>
        ParseResponse(utf8, frame) == Some(Response(raw, "", "", "", contents.checksumOk, contents.lengthOk))
  {
  }
}
