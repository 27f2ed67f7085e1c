/** The ASCII side of `CycConnection`: port arithmetic, the communication
    mode check, and the character-level reader of server responses. The
    stream the server writes is the sequence `input`; `pos` counts the
    characters read so far. */
module AsciiConnection {
  import opened Wrappers
  import opened Decimal
  import opened Terms

  const DefaultBasePort: int := 3600
  const HttpPortOffset: int := 0
  const AsciiPortOffset: int := 1
  const CfaslPortOffset: int := 14
  const AsciiMode: int := 1
  const BinaryMode: int := 2
  const DefaultCommunicationMode: int := BinaryMode

  predicate IsInt32(x: int) {
    MinInt32 <= x <= MaxInt32
  }

  /** Java `int` addition and subtraction wrap around modulo 2^32. */
  function Wrap32(x: int): (r: int)
    ensures IsInt32(r)
    ensures IsInt32(x) ==> r == x
  {
    (x - MinInt32) % 0x1_0000_0000 + MinInt32
  }

  lemma Wrap32Shift(x: int, k: int)
    ensures Wrap32(x + k * 0x1_0000_0000) == Wrap32(x)
  {
    var a := x - MinInt32;
    var q, r := a / 0x1_0000_0000, a % 0x1_0000_0000;
    assert x + k * 0x1_0000_0000 - MinInt32 == (q + k) * 0x1_0000_0000 + r;
    RemainderOf(q + k, r);
  }

  lemma RemainderOf(q: int, r: int)
    requires 0 <= r < 0x1_0000_0000
    ensures (q * 0x1_0000_0000 + r) % 0x1_0000_0000 == r
  {
  }

  /** Ports of a connection: base, ASCII and CFASL. */
  datatype Ports = Ports(basePort: int, asciiPort: int, cfaslPort: int)

  /** The ports the host/port/mode constructor derives from a base port. */
  function PortsFromBase(basePort: int): (p: Ports)
    requires IsInt32(basePort)
    ensures p.basePort == basePort
    ensures IsInt32(p.asciiPort) && IsInt32(p.cfaslPort)
    ensures basePort <= MaxInt32 - CfaslPortOffset ==>
              p.asciiPort == basePort + 1 && p.cfaslPort == basePort + 14
  {
    Ports(basePort, Wrap32(basePort + AsciiPortOffset), Wrap32(basePort + CfaslPortOffset))
  }

  /** The ports the socket constructor derives from the CFASL socket's port;
      the CFASL port field itself is left at 0. */
  function PortsFromSocket(port: int): (p: Ports)
    requires IsInt32(port)
    ensures p.cfaslPort == 0
    ensures p.asciiPort == Wrap32(p.basePort + AsciiPortOffset)
  {
    var basePort := Wrap32(port - CfaslPortOffset);
    Ports(basePort, Wrap32(basePort + AsciiPortOffset), 0)
  }

  /** A connection accepted on the CFASL port of a server recovers that
      server's base port, for every 32-bit base port, wrap-around included. */
  lemma SocketRecoversBasePort(basePort: int)
    requires IsInt32(basePort)
    ensures PortsFromSocket(PortsFromBase(basePort).cfaslPort) == PortsFromBase(basePort).(cfaslPort := 0)
  {
    var m := 0x1_0000_0000;
    var y := basePort + CfaslPortOffset;
    var w := Wrap32(y);
    var k := (y - MinInt32) / m;
    assert w == y - k * m;
    Wrap32Shift(y - CfaslPortOffset, -k);
    assert w - CfaslPortOffset == (y - CfaslPortOffset) + (-k) * m;
  }

  datatype ConnectionError = InvalidCommunicationMode(mode: int)

  /** The mode check of the host/port/mode constructor. */
  predicate ValidMode(mode: int) {
    mode == AsciiMode || mode == BinaryMode
  }

  datatype ReadError =
    | EndOfStream           // the stream ends before the reader's stop character
    | InvalidResponseCode   // the text before the first space is not an integer

  /** What `readAsciiCycResponse` returns: `answer[0]` and `answer[1]`. */
  datatype Response = Response(status: bool, body: string)

  // ---------------------------------------------------------------------
  // The readers, as functions of the stream
  // ---------------------------------------------------------------------

  /** The first space at or after `i`. */
  function FirstSpace(s: seq<char>, i: nat): (r: Option<nat>)
    ensures r.Some? ==> i <= r.value < |s| && s[r.value] == ' '
    ensures r.Some? ==> forall k :: i <= k < r.value ==> s[k] != ' '
    ensures r.None? ==> forall k :: i <= k < |s| ==> s[k] != ' '
    decreases |s| - i
  {
    if i >= |s| then None else if s[i] == ' ' then Some(i) else FirstSpace(s, i + 1)
  }

  /** `readSymbolicExpression` from `i`, inside `depth` open parentheses and
      in or out of a string: the index just after the character that closes
      the outermost one. Every `"` toggles the string state; parentheses in
      a string do not count. */
  function ScanExpression(s: seq<char>, i: nat, depth: nat, quoted: bool): (r: Option<nat>)
    requires depth > 0
    ensures r.Some? ==> i < r.value <= |s|
    decreases |s| - i
  {
    if i >= |s| then None
    else
      var q := if s[i] == '"' then !quoted else quoted;
      var d := if !q && s[i] == '(' then depth + 1 else if !q && s[i] == ')' then depth - 1 else depth;
      if d == 0 then Some(i + 1) else ScanExpression(s, i + 1, d, q)
  }

  /** The end of the symbolic expression that starts at `p`: its first
      character opens it, whatever that character is. */
  function ExpressionEnd(s: seq<char>, p: nat): (r: Option<nat>)
    ensures r.Some? ==> p < r.value <= |s|
  {
    if p >= |s| then None else ScanExpression(s, p + 1, 1, false)
  }

  /** `readQuotedString` from `i`: the index just after the first `"` that
      no backslash escapes. */
  function ScanQuoted(s: seq<char>, i: nat, escaped: bool): (r: Option<nat>)
    ensures r.Some? ==> i < r.value <= |s| && s[r.value - 1] == '"'
    decreases |s| - i
  {
    if i >= |s| then None
    else if s[i] == '"' && !escaped then Some(i + 1)
    else ScanQuoted(s, i + 1, if escaped then false else s[i] == '\\')
  }

  /** The end of the quoted string whose opening quote is at `p`. */
  function QuotedEnd(s: seq<char>, p: nat): (r: Option<nat>)
    ensures r.Some? ==> p + 1 < r.value <= |s|
  {
    if p >= |s| then None else ScanQuoted(s, p + 1, false)
  }

  predicate IsLineEnd(c: char) {
    c == '\r' || c == '\n'
  }

  /** `readAtom` from `i`: the index of the first carriage return or line
      feed, which stays unread. */
  function AtomEnd(s: seq<char>, i: nat): (r: Option<nat>)
    ensures r.Some? ==> i <= r.value < |s| && IsLineEnd(s[r.value])
    ensures r.Some? ==> forall k :: i <= k < r.value ==> !IsLineEnd(s[k])
    decreases |s| - i
  {
    if i >= |s| then None else if IsLineEnd(s[i]) then Some(i) else AtomEnd(s, i + 1)
  }

  /** Where the body of the response that starts at `p` begins: just after
      the first space, provided the code before it parses. */
  function ResponseCode(s: seq<char>, p: nat): Result<(int, nat), ReadError>
  {
    match FirstSpace(s, p)
    case None => Err(EndOfStream)
    case Some(k) =>
      match ParseInt(Trim(s[p..k]))
      case None => Err(InvalidResponseCode)
      case Some(code) => Ok((code, k + 1))
  }

  /** The body reader `readAsciiCycResponse` picks by peeking at the body's
      first character; the end of the body. */
  function BodyEnd(s: seq<char>, b: nat): Option<nat> {
    if b < |s| && s[b] == '(' then ExpressionEnd(s, b)
    else if b < |s| && s[b] == '"' then QuotedEnd(s, b)
    else AtomEnd(s, b)
  }

  /** The whole of `readAsciiCycResponse` on the stream from `p`: the
      response and where reading stops, after the one terminating character
      (if there is one). */
  function ReadResponse(s: seq<char>, p: nat): Result<(Response, nat), ReadError>
  {
    var (code, b) :- ResponseCode(s, p);
    match BodyEnd(s, b)
    case None => Err(EndOfStream)
    case Some(e) => Ok((Response(code == 200, s[b..e]), if e < |s| then e + 1 else e))
  }

  /** Reading the code: with no space left the stream has ended; a code
      read is a 32-bit integer and the body starts just after a space
      beyond the cursor. */
  lemma ResponseCodeBounds(s: seq<char>, p: nat)
    ensures FirstSpace(s, p).None? ==> ResponseCode(s, p) == Err(EndOfStream)
    ensures ResponseCode(s, p).Ok? ==>
              var b := ResponseCode(s, p).value.1;
              p < b <= |s| && s[b - 1] == ' ' && IsInt32(ResponseCode(s, p).value.0)
  {
  }

  /** A response read fails as its code read fails; otherwise its status
      says whether the code is 200 and its body is the text right after the
      code, ending where reading stops or one character before. */
  lemma ReadResponseParts(s: seq<char>, p: nat)
    ensures ResponseCode(s, p).Err? ==> ReadResponse(s, p) == Err(ResponseCode(s, p).error)
    ensures ReadResponse(s, p).Ok? ==>
              var (response, e) := ReadResponse(s, p).value;
              var b := ResponseCode(s, p).value.1;
              ResponseCode(s, p).Ok? && response.status == (ResponseCode(s, p).value.0 == 200) &&
              b + |response.body| <= e <= |s| && response.body == s[b..b + |response.body|]
  {
  }

  // ---------------------------------------------------------------------
  // The connection
  // ---------------------------------------------------------------------

  class CycConnection {
    var hostName: string
    var basePort: int
    var asciiPort: int
    var cfaslPort: int
    var communicationMode: int
    /** Set once a response body turned out to be a symbolic expression. */
    var isSymbolicExpression: bool
    /** Everything the server writes on the ASCII stream. */
    var input: seq<char>
    /** How much of `input` has been read. */
    var pos: nat

    ghost predicate Valid()
      reads this
    {
      pos <= |input|
    }

    /** `CycConnection(Socket)`: a binary connection whose base port is
        recovered from the socket's port. */
    constructor FromSocket(host: string, port: int, stream: seq<char>)
      requires IsInt32(port)
      ensures Ports(basePort, asciiPort, cfaslPort) == PortsFromSocket(port)
      ensures hostName == host && communicationMode == BinaryMode
      ensures input == stream && pos == 0 && !isSymbolicExpression && Valid()
    {
      var p := PortsFromSocket(port);
      hostName, basePort, asciiPort, cfaslPort := host, p.basePort, p.asciiPort, p.cfaslPort;
      communicationMode := BinaryMode;
      isSymbolicExpression := false;
      input, pos := stream, 0;
    }

    /** The field assignments of `CycConnection(String, int, int, CycAccess)`
        for a mode that passed the check. */
    constructor (host: string, base: int, mode: int, stream: seq<char>)
      requires IsInt32(base) && ValidMode(mode)
      ensures Ports(basePort, asciiPort, cfaslPort) == PortsFromBase(base)
      ensures hostName == host && communicationMode == mode
      ensures input == stream && pos == 0 && !isSymbolicExpression && Valid()
    {
      var p := PortsFromBase(base);
      hostName, basePort, asciiPort, cfaslPort := host, p.basePort, p.asciiPort, p.cfaslPort;
      communicationMode := mode;
      isSymbolicExpression := false;
      input, pos := stream, 0;
    }

    /** `readSymbolicExpression`: exactly the characters consumed, from the
        opening one through the one that closes it. */
    method ReadSymbolicExpression() returns (r: Result<string, ReadError>)
      requires Valid()
      modifies this`pos
      ensures Valid()
      ensures ExpressionEnd(input, old(pos)).None? ==> r == Err(EndOfStream) && pos == |input|
      ensures ExpressionEnd(input, old(pos)).Some? ==>
                pos == ExpressionEnd(input, old(pos)).value && r == Ok(input[old(pos)..pos])
    {
      if pos == |input| {
        return Err(EndOfStream);
      }
      var start := pos;
      var parenLevel: nat := 1;
      var isQuotedString := false;
      pos := pos + 1;
      while parenLevel != 0
        invariant start < pos <= |input|
        invariant parenLevel == 0 ==> ExpressionEnd(input, start) == Some(pos)
        invariant parenLevel != 0 ==> ExpressionEnd(input, start) == ScanExpression(input, pos, parenLevel, isQuotedString)
        decreases |input| - pos, parenLevel
      {
        if pos == |input| {
          return Err(EndOfStream);
        }
        var ch := input[pos];
        pos := pos + 1;
        if ch == '"' {
          isQuotedString := !isQuotedString;
        }
        if !isQuotedString {
          if ch == '(' {
            parenLevel := parenLevel + 1;
          }
          if ch == ')' {
            parenLevel := parenLevel - 1;
          }
        }
      }
      r := Ok(input[start..pos]);
    }

    /** `readQuotedString`: the opening quote, the content with its
        backslashes kept, and the closing quote. */
    method ReadQuotedString() returns (r: Result<string, ReadError>)
      requires Valid()
      modifies this`pos
      ensures Valid()
      ensures QuotedEnd(input, old(pos)).None? ==> r == Err(EndOfStream) && pos == |input|
      ensures QuotedEnd(input, old(pos)).Some? ==>
                && pos == QuotedEnd(input, old(pos)).value
                && r == Ok("\"" + input[old(pos) + 1..pos - 1] + "\"")
                && (input[old(pos)] == '"' ==> r == Ok(input[old(pos)..pos]))
    {
      if pos == |input| {
        return Err(EndOfStream);
      }
      var start := pos;
      pos := pos + 1;
      var escapedChar := false;
      var result: string := [];
      while true
        invariant start < pos <= |input|
        invariant result == input[start + 1..pos]
        invariant QuotedEnd(input, start) == ScanQuoted(input, pos, escapedChar)
        decreases |input| - pos
      {
        if pos == |input| {
          return Err(EndOfStream);
        }
        var ch := input[pos];
        pos := pos + 1;
        if ch == '"' && !escapedChar {
          if input[start] == '"' {
            QuotedSlice(input, start, pos);
          }
          return Ok("\"" + result + "\"");
        }
        if escapedChar {
          escapedChar := false;
        } else if ch == '\\' {
          escapedChar := true;
        }
        result := result + [ch];
      }
    }

    /** A stretch between two quotes is a quote, what lies between, and
        a quote. */
    static lemma QuotedSlice(s: seq<char>, start: nat, end: nat)
      requires start + 1 < end <= |s| && s[start] == '"' && s[end - 1] == '"'
      ensures s[start..end] == "\"" + s[start + 1..end - 1] + "\""
    {
      assert s[start..end] == [s[start]] + s[start + 1..end - 1] + [s[end - 1]];
    }

    /** `readAtom`: the characters before the first carriage return or line
        feed, which is left unread. */
    method ReadAtom() returns (r: Result<string, ReadError>)
      requires Valid()
      modifies this`pos
      ensures Valid()
      ensures AtomEnd(input, old(pos)).None? ==> r == Err(EndOfStream) && pos == |input|
      ensures AtomEnd(input, old(pos)).Some? ==>
                pos == AtomEnd(input, old(pos)).value && r == Ok(input[old(pos)..pos])
    {
      var start := pos;
      while true
        invariant start <= pos <= |input|
        invariant AtomEnd(input, start) == AtomEnd(input, pos)
        decreases |input| - pos
      {
        if pos == |input| {
          return Err(EndOfStream);
        }
        if IsLineEnd(input[pos]) {
          return Ok(input[start..pos]);
        }
        pos := pos + 1;
      }
    }

    /** The first part of `readAsciiCycResponse`: the characters up to the
        first space, which is consumed too, read as a trimmed integer. */
    method ReadResponseCode() returns (r: Result<int, ReadError>)
      requires Valid()
      modifies this`pos
      ensures Valid()
      ensures ResponseCode(input, old(pos)).Ok? ==>
                r == Ok(ResponseCode(input, old(pos)).value.0) && pos == ResponseCode(input, old(pos)).value.1
      ensures ResponseCode(input, old(pos)).Err? ==> r == Err(ResponseCode(input, old(pos)).error)
    {
      var start := pos;
      while pos < |input| && input[pos] != ' '
        invariant start <= pos <= |input|
        invariant FirstSpace(input, start) == FirstSpace(input, pos)
      {
        pos := pos + 1;
      }
      if pos == |input| {
        return Err(EndOfStream);
      }
      assert FirstSpace(input, start) == Some(pos);
      var digits := input[start..pos];
      pos := pos + 1;
      var code := ParseInt(Trim(digits));
      if code.None? {
        return Err(InvalidResponseCode);
      }
      r := Ok(code.value);
    }

    /** `readAsciiCycResponse`: the response code up to the first space,
        then the body chosen by its first character, then one terminating
        character. */
    method ReadAsciiCycResponse() returns (r: Result<Response, ReadError>)
      requires Valid()
      modifies this`pos, this`isSymbolicExpression
      ensures Valid()
      ensures match ReadResponse(input, old(pos))
              case Ok((response, next)) => r == Ok(response) && pos == next
              case Err(e) => r == Err(e)
      ensures isSymbolicExpression == (old(isSymbolicExpression) ||
                (ResponseCode(input, old(pos)).Ok? && ResponseCode(input, old(pos)).value.1 < |input| &&
                 input[ResponseCode(input, old(pos)).value.1] == '('))
    {
      var code := ReadResponseCode();
      if code.Err? {
        return Err(code.error);
      }
      var status := code.value == 200;
      var body: Result<string, ReadError>;
      if pos < |input| && input[pos] == '(' {
        isSymbolicExpression := true;
        body := ReadSymbolicExpression();
      } else if pos < |input| && input[pos] == '"' {
        body := ReadQuotedString();
      } else {
        body := ReadAtom();
      }
      if body.Err? {
        return Err(body.error);
      }
      if pos < |input| {
        pos := pos + 1;
      }
      r := Ok(Response(status, body.value));
    }
  }

  /** The host/port/mode constructor: an invalid mode throws. */
  method Open(host: string, base: int, mode: int, stream: seq<char>) returns (r: Result<CycConnection, ConnectionError>)
    requires IsInt32(base)
    ensures !ValidMode(mode) ==> r == Err(InvalidCommunicationMode(mode))
    ensures ValidMode(mode) ==> && r.Ok? && fresh(r.value) && r.value.Valid()
                                && Ports(r.value.basePort, r.value.asciiPort, r.value.cfaslPort) == PortsFromBase(base)
                                && r.value.communicationMode == mode && r.value.input == stream
  {
    if !ValidMode(mode) {
      return Err(InvalidCommunicationMode(mode));
    }
    var c := new CycConnection(host, base, mode, stream);
    r := Ok(c);
  }

  // ---------------------------------------------------------------------
  // What the readers read back
  // ---------------------------------------------------------------------

  /** A string written with every `"` and `\` escaped by a backslash. */
  function Escape(text: string): (r: string)
    ensures |r| >= |text|
  {
    if text == [] then []
    else (if text[0] == '"' || text[0] == '\\' then ['\\', text[0]] else [text[0]]) + Escape(text[1..])
  }

  function Quote(text: string): string {
    "\"" + Escape(text) + "\""
  }

  lemma {:induction false} ScanEscaped(text: string, rest: seq<char>)
    ensures ScanQuoted(Escape(text) + "\"" + rest, 0, false) == Some(|Escape(text)| + 1)
  {
    var s := Escape(text) + "\"" + rest;
    if text == [] {
      assert s[0] == '"';
    } else {
      var head := if text[0] == '"' || text[0] == '\\' then ['\\', text[0]] else [text[0]];
      var tail := Escape(text[1..]) + "\"" + rest;
      assert s == head + tail;
      ScanEscaped(text[1..], rest);
      ScanShift(head, tail, false);
    }
  }

  /** Scanning past an escape unit (one plain character, or a backslash
      and the character it escapes) lands back outside an escape. */
  lemma ScanShift(head: seq<char>, tail: seq<char>, escaped: bool)
    requires !escaped
    requires (|head| == 1 && head[0] != '"' && head[0] != '\\') || (|head| == 2 && head[0] == '\\')
    requires ScanQuoted(tail, 0, false).Some?
    ensures ScanQuoted(head + tail, 0, false) == Some(ScanQuoted(tail, 0, false).value + |head|)
  {
    var s := head + tail;
    ScanOffset(s, |head|, tail, false);
    if |head| == 2 {
      assert ScanQuoted(s, 1, true) == ScanQuoted(s, 2, false);
    }
  }

  lemma {:induction false} ScanOffset(s: seq<char>, n: nat, tail: seq<char>, escaped: bool)
    requires n <= |s| && s[n..] == tail
    requires ScanQuoted(tail, 0, escaped).Some?
    ensures ScanQuoted(s, n, escaped) == Some(ScanQuoted(tail, 0, escaped).value + n)
    decreases |s| - n
  {
    assert s[n] == tail[0];
    if !(tail[0] == '"' && !escaped) {
      assert s[n + 1..] == tail[1..];
      ScanTailShift(tail, escaped);
      ScanOffset(s, n + 1, tail[1..], if escaped then false else tail[0] == '\\');
    }
  }

  lemma ScanTailShift(t: seq<char>, escaped: bool)
    requires |t| > 0 && !(t[0] == '"' && !escaped)
    requires ScanQuoted(t, 0, escaped).Some?
    ensures ScanQuoted(t[1..], 0, if escaped then false else t[0] == '\\').Some?
    ensures ScanQuoted(t, 0, escaped).value == ScanQuoted(t[1..], 0, if escaped then false else t[0] == '\\').value + 1
  {
    ScanDrop(t, 1, if escaped then false else t[0] == '\\');
  }

  lemma {:induction false} ScanDrop(t: seq<char>, i: nat, escaped: bool)
    requires 0 < i <= |t|
    ensures ScanQuoted(t, i, escaped) == (match ScanQuoted(t[1..], i - 1, escaped)
                                          case None => None
                                          case Some(k) => Some(k + 1))
    decreases |t| - i
  {
    if i < |t| {
      assert t[1..][i - 1] == t[i];
      ScanDrop(t, i + 1, if escaped then false else t[i] == '\\');
    }
  }

  /** Characters that are never special to the expression reader. */
  predicate Plain(text: string) {
    forall k :: 0 <= k < |text| ==> text[k] != '(' && text[k] != ')' && text[k] != '"'
  }

  /** Terms whose printed form the expression reader can delimit: names
      without parentheses or quotes, strings without quotes. */
  predicate Printable(t: Term) {
    match t
    case Const(n) => Plain(n)
    case Var(n) => Plain(n)
    case Int(_) => true
    case Str(text) => forall k :: 0 <= k < |text| ==> text[k] != '"'
    case List(items) => AllPrintable(items)
    case Nart(f, args) => Printable(f) && AllPrintable(args)
  }

  predicate AllPrintable(s: seq<Term>) {
    forall i :: 0 <= i < |s| ==> Printable(s[i])
  }

  /** The expression reader's state after a run of characters, or `None`
      if the depth reaches 0 within the run. */
  function Through(t: seq<char>, depth: nat, quoted: bool): (r: Option<(nat, bool)>)
    requires depth > 0
    ensures r.Some? ==> r.value.0 > 0
    decreases |t|
  {
    if t == [] then Some((depth, quoted))
    else
      var q := if t[0] == '"' then !quoted else quoted;
      var d := if !q && t[0] == '(' then depth + 1 else if !q && t[0] == ')' then depth - 1 else depth;
      if d == 0 then None else Through(t[1..], d, q)
  }

  lemma {:induction false} ThroughAppend(a: seq<char>, b: seq<char>, depth: nat, quoted: bool)
    requires depth > 0 && Through(a, depth, quoted).Some?
    ensures Through(a + b, depth, quoted) ==
            Through(b, Through(a, depth, quoted).value.0, Through(a, depth, quoted).value.1)
    decreases |a|
  {
    if a == [] {
      assert a + b == b;
    } else {
      assert (a + b)[1..] == a[1..] + b;
      var q := if a[0] == '"' then !quoted else quoted;
      var d := if !q && a[0] == '(' then depth + 1 else if !q && a[0] == ')' then depth - 1 else depth;
      ThroughAppend(a[1..], b, d, q);
    }
  }

  lemma {:induction false} ThroughPlain(t: seq<char>, depth: nat, quoted: bool)
    requires depth > 0
    requires forall k :: 0 <= k < |t| ==> t[k] != '"' && (quoted || (t[k] != '(' && t[k] != ')'))
    ensures Through(t, depth, quoted) == Some((depth, quoted))
    decreases |t|
  {
    if t != [] {
      ThroughPlain(t[1..], depth, quoted);
    }
  }

  /** Scanning a stream agrees with running through a stretch of it. */
  lemma {:induction false} ScanThrough(s: seq<char>, i: nat, j: nat, depth: nat, quoted: bool)
    requires i <= j <= |s| && depth > 0
    requires Through(s[i..j], depth, quoted).Some?
    ensures var st := Through(s[i..j], depth, quoted).value;
            st.0 > 0 && ScanExpression(s, i, depth, quoted) == ScanExpression(s, j, st.0, st.1)
    decreases j - i
  {
    if i < j {
      var q := if s[i] == '"' then !quoted else quoted;
      var d := if !q && s[i] == '(' then depth + 1 else if !q && s[i] == ')' then depth - 1 else depth;
      assert s[i..j][0] == s[i] && s[i..j][1..] == s[i + 1..j];
      ScanThrough(s, i + 1, j, d, q);
    } else {
      assert s[i..j] == [];
    }
  }

  lemma IntPlain(n: int)
    ensures Plain(IntToString(n))
  {
    var s := NatToString(if n < 0 then -n else n);
    assert AllDigits(s);
  }

  /** A term as `toString` prints it, or as `cyclify` does. */
  function Printed(t: Term, cyclified: bool): string {
    if cyclified then Cyclify(t) else Display(t)
  }

  function PrintedAll(items: seq<Term>, cyclified: bool): string {
    if cyclified then CyclifyAll(items) else DisplayAll(items)
  }

  /** The printed form of a printable term leaves the expression reader at
      the depth it started at, outside any string. */
  lemma {:induction false} PrintedThrough(t: Term, depth: nat, cyclified: bool)
    requires depth > 0 && Printable(t)
    ensures Through(Printed(t, cyclified), depth, false) == Some((depth, false))
    decreases t, 1
  {
    match t
    case Const(n) =>
      if cyclified {
        ThroughPlain("#$" + n, depth, false);
      } else {
        ThroughPlain(n, depth, false);
      }
    case Var(n) =>
      assert Printed(t, cyclified) == "?" + n;
      ThroughPlain("?" + n, depth, false);
    case Int(i) =>
      IntPlain(i);
      ThroughPlain(IntToString(i), depth, false);
    case Str(text) => StringThrough(text, depth, cyclified);
    case List(items) =>
      PrintedAllThrough(items, depth + 1, cyclified);
      ListThrough(items, depth, cyclified);
    case Nart(f, args) =>
      PrintedThrough(f, depth + 1, cyclified);
      if args != [] {
        PrintedAllThrough(args, depth + 1, cyclified);
      }
      NartThrough(f, args, depth, cyclified);
  }

  lemma StringThrough(text: string, depth: nat, cyclified: bool)
    requires depth > 0 && forall k :: 0 <= k < |text| ==> text[k] != '"'
    ensures Through(Printed(Str(text), cyclified), depth, false) == Some((depth, false))
  {
    assert Printed(Str(text), cyclified) == "\"" + (text + "\"");
    ThroughPlain(text, depth, true);
    ThroughAppend(text, "\"", depth, true);
  }

  lemma ListThrough(items: seq<Term>, depth: nat, cyclified: bool)
    requires depth > 0 && Through(PrintedAll(items, cyclified), depth + 1, false) == Some((depth + 1, false))
    ensures Through(Printed(List(items), cyclified), depth, false) == Some((depth, false))
  {
    PrintedListForm(items, cyclified);
    ParenThrough(PrintedAll(items, cyclified), "", depth);
  }

  lemma PrintedListForm(items: seq<Term>, cyclified: bool)
    ensures Printed(List(items), cyclified) == "(" + (PrintedAll(items, cyclified) + ("" + ")"))
  {
    assert "" + ")" == ")";
  }

  /** What follows the functor in a printed NART. */
  function ArgsTail(args: seq<Term>, cyclified: bool): string {
    if args == [] then "" else " " + PrintedAll(args, cyclified)
  }

  lemma PrintedNartForm(f: Term, args: seq<Term>, cyclified: bool)
    ensures Printed(Nart(f, args), cyclified) == "(" + (Printed(f, cyclified) + (ArgsTail(args, cyclified) + ")"))
  {
  }

  lemma NartThrough(f: Term, args: seq<Term>, depth: nat, cyclified: bool)
    requires depth > 0 && Through(Printed(f, cyclified), depth + 1, false) == Some((depth + 1, false))
    requires args != [] ==> Through(PrintedAll(args, cyclified), depth + 1, false) == Some((depth + 1, false))
    ensures Through(Printed(Nart(f, args), cyclified), depth, false) == Some((depth, false))
  {
    PrintedNartForm(f, args, cyclified);
    if args != [] {
      ThroughAppend(" ", PrintedAll(args, cyclified), depth + 1, false);
    }
    ParenThrough(Printed(f, cyclified), ArgsTail(args, cyclified), depth);
  }

  /** Two stretches that each keep the reader's state, between parentheses,
      keep it too. */
  lemma ParenThrough(a: string, b: string, depth: nat)
    requires depth > 0
    requires Through(a, depth + 1, false) == Some((depth + 1, false))
    requires Through(b, depth + 1, false) == Some((depth + 1, false))
    ensures Through("(" + (a + (b + ")")), depth, false) == Some((depth, false))
  {
    ThroughAppend(b, ")", depth + 1, false);
    ThroughAppend(a, b + ")", depth + 1, false);
    assert ("(" + (a + (b + ")")))[1..] == a + (b + ")");
  }

  lemma {:induction false} PrintedAllThrough(items: seq<Term>, depth: nat, cyclified: bool)
    requires depth > 0 && AllPrintable(items)
    ensures Through(PrintedAll(items, cyclified), depth, false) == Some((depth, false))
    decreases items, 0
  {
    if |items| == 1 {
      PrintedThrough(items[0], depth, cyclified);
    } else if |items| > 1 {
      PrintedThrough(items[0], depth, cyclified);
      assert AllPrintable(items[1..]);
      PrintedAllThrough(items[1..], depth, cyclified);
      var rest := PrintedAll(items[1..], cyclified);
      ThroughAppend(" ", rest, depth, false);
      assert PrintedAll(items, cyclified) == Printed(items[0], cyclified) + (" " + rest);
      ThroughAppend(Printed(items[0], cyclified), " " + rest, depth, false);
    }
  }

  /** A stretch that leaves the expression reader at depth 1, in
      parentheses, is read back whole, whatever follows it. */
  lemma ReadsParenthesized(inner: seq<char>, rest: seq<char>)
    requires Through(inner, 1, false) == Some((1, false))
    ensures ExpressionEnd("(" + inner + ")" + rest, 0) == Some(|inner| + 2)
  {
    var s := "(" + inner + ")" + rest;
    assert s[1..1 + |inner|] == inner;
    ScanThrough(s, 1, 1 + |inner|, 1, false);
    assert s[1 + |inner|] == ')';
  }

  /** What the list printer writes, the expression reader reads back whole,
      whatever follows it. */
  lemma ReadsPrintedList(items: seq<Term>, rest: seq<char>)
    requires AllPrintable(items)
    ensures ExpressionEnd(Display(List(items)) + rest, 0) == Some(|Display(List(items))|)
    ensures Display(List(items))[0] == '('
    ensures BodyEnd(Display(List(items)) + rest, 0) == Some(|Display(List(items))|)
  {
    PrintedAllThrough(items, 1, false);
    ReadsParenthesized(DisplayAll(items), rest);
  }

  /** What the string printer writes, the quoted-string reader reads back
      whole, whatever follows it. */
  lemma ReadsQuotedString(text: string, rest: seq<char>)
    ensures QuotedEnd(Quote(text) + rest, 0) == Some(|Quote(text)|)
    ensures Quote(text)[0] == '"' && BodyEnd(Quote(text) + rest, 0) == Some(|Quote(text)|)
  {
    var s := Quote(text) + rest;
    ScanEscaped(text, rest);
    assert s[1..] == Escape(text) + "\"" + rest;
    ScanDrop(s, 1, false);
  }

  /** The body opens a list or a string, and the reader that its first
      character selects stops right before the line feed. */
  predicate DelimitedBody(body: seq<char>, rest: seq<char>) {
    |body| > 0 && (body[0] == '(' || body[0] == '"') &&
    BodyEnd(body + ("\n" + rest), 0) == Some(|body|)
  }

  /** A response as the server writes it: the code, a space, the body and
      a line feed, followed by whatever comes next on the stream. */
  function ResponseText(code: nat, body: seq<char>, rest: seq<char>): (r: seq<char>)
    ensures |r| == |NatToString(code)| + |body| + |rest| + 2
  {
    JoinedFive(NatToString(code), " ", body, "\n", rest);
    Joined([NatToString(code), " ", body, "\n", rest])
  }

  /** The parts written one after the other. */
  function Joined(parts: seq<seq<char>>): seq<char> {
    if parts == [] then [] else parts[0] + Joined(parts[1..])
  }

  lemma JoinedFive(a: seq<char>, b: seq<char>, c: seq<char>, d: seq<char>, e: seq<char>)
    ensures Joined([a, b, c, d, e]) == (a + b) + (c + (d + e))
  {
    var parts := [a, b, c, d, e];
    assert parts[1..][1..][1..][1..][1..] == [];
    assert Joined(parts[1..][1..][1..][1..]) == e;
    assert Joined(parts[1..][1..][1..]) == d + e;
    assert Joined(parts[1..][1..]) == c + (d + e);
    assert Joined(parts[1..]) == b + (c + (d + e));
  }

  lemma ResponseTextIs(code: nat, body: seq<char>, rest: seq<char>)
    ensures ResponseText(code, body, rest) == (NatToString(code) + " ") + (body + ("\n" + rest))
  {
    JoinedFive(NatToString(code), " ", body, "\n", rest);
  }

  lemma CodeOfResponse(code: nat, body: seq<char>, rest: seq<char>)
    requires code <= MaxInt32
    ensures ResponseCode(ResponseText(code, body, rest), 0) == Ok((code, |NatToString(code)| + 1))
  {
    ResponseTextIs(code, body, rest);
    ReadsCode(code, body + ("\n" + rest));
  }

  lemma BodyOfResponse(code: nat, body: seq<char>, rest: seq<char>)
    requires DelimitedBody(body, rest)
    ensures BodyEnd(ResponseText(code, body, rest), |NatToString(code)| + 1) == Some(|NatToString(code)| + 1 + |body|)
  {
    ResponseTextIs(code, body, rest);
    BodyEndAfter(NatToString(code) + " ", body + ("\n" + rest));
  }

  /** Reading a response, given where its code and its body end: the code
      spelled `digits`, then a space, then the body. */
  lemma ResponseAt(s: seq<char>, code: int, digits: seq<char>, body: seq<char>)
    requires ResponseCode(s, 0) == Ok((code, |digits| + 1))
    requires BodyEnd(s, |digits| + 1) == Some(|digits| + 1 + |body|)
    requires |digits| + 1 + |body| < |s|
    requires s[|digits| + 1..|digits| + 1 + |body|] == body
    ensures ReadResponse(s, 0) == Ok((Response(code == 200, body), |digits| + 1 + |body| + 1))
  {
  }

  lemma BodyEndAfter(prefix: seq<char>, tail: seq<char>)
    requires |tail| > 0 && (tail[0] == '(' || tail[0] == '"')
    requires BodyEnd(tail, 0).Some?
    ensures BodyEnd(prefix + tail, |prefix|) == Some(BodyEnd(tail, 0).value + |prefix|)
  {
    var s := prefix + tail;
    assert s[|prefix|..] == tail;
    if tail[0] == '(' {
      ExpressionEndShift(s, |prefix|, tail);
    } else {
      QuotedEndShift(s, |prefix|, tail);
    }
  }

  lemma AtomBodyEnd(prefix: seq<char>, atom: string, rest: seq<char>)
    requires forall k :: 0 <= k < |atom| ==> !IsLineEnd(atom[k])
    requires atom != [] ==> atom[0] != '(' && atom[0] != '"'
    ensures BodyEnd(prefix + (atom + ("\n" + rest)), |prefix|) == Some(|prefix| + |atom|)
  {
    var s := prefix + (atom + ("\n" + rest));
    var j := |prefix| + |atom|;
    assert s[j] == '\n';
    forall k | |prefix| <= k < j
      ensures !IsLineEnd(s[k])
    {
      assert s[k] == atom[k - |prefix|];
    }
    AtomEndAt(s, |prefix|, j);
    if atom != [] {
      assert s[|prefix|] == atom[0];
    }
  }

  lemma {:induction false} AtomEndAt(s: seq<char>, i: nat, j: nat)
    requires i <= j < |s| && IsLineEnd(s[j])
    requires forall k :: i <= k < j ==> !IsLineEnd(s[k])
    ensures AtomEnd(s, i) == Some(j)
    decreases j - i
  {
    if i < j {
      AtomEndAt(s, i + 1, j);
    }
  }

  lemma QuotedEndShift(s: seq<char>, b: nat, tail: seq<char>)
    requires b < |s| && s[b..] == tail
    requires QuotedEnd(tail, 0).Some?
    ensures QuotedEnd(s, b) == Some(QuotedEnd(tail, 0).value + b)
    ensures tail[0] == '"' ==> BodyEnd(s, b) == Some(QuotedEnd(tail, 0).value + b)
  {
    assert tail[1..] == s[b + 1..];
    ScanDrop(tail, 1, false);
    ScanOffset(s, b + 1, tail[1..], false);
  }

  /** The code in front of the first space is read back. */
  lemma ReadsCode(code: nat, tail: seq<char>)
    requires code <= MaxInt32
    ensures ResponseCode(NatToString(code) + " " + tail, 0) == Ok((code, |NatToString(code)| + 1))
  {
    var digits := NatToString(code);
    var s := digits + " " + tail;
    forall k | 0 <= k < |digits|
      ensures s[k] != ' '
    {
      assert s[k] == digits[k] && IsDigit(digits[k]);
    }
    FirstSpaceAt(s, |digits|);
    assert s[0..|digits|] == digits;
    TrimDigits([], code, []);
    assert [] + digits + [] == digits;
    ParseIntRoundTrip(code);
  }

  lemma FirstSpaceAt(s: seq<char>, j: nat)
    requires j < |s| && s[j] == ' ' && forall k :: 0 <= k < j ==> s[k] != ' '
    ensures FirstSpace(s, 0) == Some(j)
  {
  }

  lemma ExpressionEndShift(s: seq<char>, b: nat, tail: seq<char>)
    requires b <= |s| && s[b..] == tail
    requires ExpressionEnd(tail, 0).Some?
    ensures ExpressionEnd(s, b) == Some(ExpressionEnd(tail, 0).value + b)
    ensures tail[0] == '(' ==> BodyEnd(s, b) == Some(ExpressionEnd(tail, 0).value + b)
  {
    ScanExpressionShift(s, b, tail, 1, 1, false);
  }

  lemma {:induction false} ScanExpressionShift(s: seq<char>, b: nat, tail: seq<char>, i: nat, depth: nat, quoted: bool)
    requires b <= |s| && s[b..] == tail && depth > 0
    ensures ScanExpression(s, b + i, depth, quoted) ==
            (match ScanExpression(tail, i, depth, quoted) case None => None case Some(k) => Some(k + b))
    decreases |tail| - i
  {
    if i < |tail| {
      assert s[b + i] == tail[i];
      var q := if tail[i] == '"' then !quoted else quoted;
      var d := if !q && tail[i] == '(' then depth + 1 else if !q && tail[i] == ')' then depth - 1 else depth;
      if d != 0 {
        ScanExpressionShift(s, b, tail, i + 1, d, q);
      }
    }
  }
}
