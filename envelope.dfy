/**
 * The reload message on the wire: `JSON.stringify({modelData, actionData})`
 * on the server, and the client's `JSON.parse` of it, read back into the two
 * payload strings.
 */
module ReloadEnvelope {
  import opened Js

  /** What one reload carries: both payloads, each still JSON text. */
  datatype ReloadMessage = ReloadMessage(modelData: string, actionData: string)

  /** The lower-case hexadecimal digit for `n`. */
  function HexDigit(n: nat): char
    requires n < 16
  {
    if n < 10 then (48 + n) as char else (87 + n) as char
  }

  /** The value of a hexadecimal digit of either case. */
  function HexValue(c: char): (r: Option<nat>)
    ensures r.Some? ==> r.value < 16
  {
    if '0' <= c <= '9' then Some(c as int - 48)
    else if 'a' <= c <= 'f' then Some(c as int - 87)
    else if 'A' <= c <= 'F' then Some(c as int - 55)
    else None
  }

  /** How `JSON.stringify` writes one character inside a string literal. */
  function QuoteChar(c: char): string {
    if c == '"' then ['\\', '"']
    else if c == '\\' then ['\\', '\\']
    else if c as int == 0x08 then ['\\', 'b']
    else if c == '\t' then ['\\', 't']
    else if c == '\n' then ['\\', 'n']
    else if c as int == 0x0C then ['\\', 'f']
    else if c == '\r' then ['\\', 'r']
    else if c as int < 0x20 then ['\\', 'u', '0', '0', HexDigit(c as int / 16), HexDigit(c as int % 16)]
    else [c]
  }

  /** The inside of the string literal `JSON.stringify` writes for `s`. */
  function QuoteBody(s: string): string {
    if s == [] then [] else QuoteChar(s[0]) + QuoteBody(s[1..])
  }

  /** `JSON.stringify(s)` for a string `s`. */
  function Quote(s: string): string {
    "\"" + QuoteBody(s) + "\""
  }

  /** What `JSON.stringify` writes before each value: the opening brace or the comma, then the quoted key and a colon. */
  const ModelDataKey := "{\"modelData\":"
  const ActionDataKey := ",\"actionData\":"

  /** `JSON.stringify({modelData: m.modelData, actionData: m.actionData})`. */
  function Stringify(m: ReloadMessage): string {
    ModelDataKey + Quote(m.modelData) + ActionDataKey + Quote(m.actionData) + "}"
  }

  /**
   * One escape sequence, given the text after its backslash: the character it
   * stands for and how many characters it spans.
   */
  function Unescape(t: string): (r: Option<(char, nat)>)
    ensures r.Some? ==> 1 <= r.value.1 <= |t|
  {
    if |t| == 0 then None
    else if t[0] == '"' || t[0] == '\\' || t[0] == '/' then Some((t[0], 1))
    else if t[0] == 'b' then Some((8 as char, 1))
    else if t[0] == 'f' then Some((12 as char, 1))
    else if t[0] == 'n' then Some(('\n', 1))
    else if t[0] == 'r' then Some(('\r', 1))
    else if t[0] == 't' then Some(('\t', 1))
    else if t[0] == 'u' && |t| >= 5 then
      match (HexValue(t[1]), HexValue(t[2]), HexValue(t[3]), HexValue(t[4]))
      case (Some(a), Some(b), Some(c), Some(d)) =>
        var v := ((a * 16 + b) * 16 + c) * 16 + d;
        if 0xD800 <= v < 0xE000 then None else Some((v as char, 5))
      case _ => None
    else None
  }

  /**
   * Reads a string literal whose opening quote is already consumed: the text
   * it denotes and what follows the closing quote. None where `JSON.parse`
   * reports a syntax error.
   */
  function ParseStringBody(t: string): (r: Option<(string, string)>)
    ensures r.Some? ==> |r.value.1| < |t|
    decreases |t|
  {
    if |t| == 0 then None
    else if t[0] == '"' then Some(([], t[1..]))
    else if t[0] == '\\' then
      match Unescape(t[1..])
      case None => None
      case Some((c, n)) =>
        match ParseStringBody(t[1 + n..])
        case None => None
        case Some((s, rest)) => Some(([c] + s, rest))
    else if (t[0] as int) < 0x20 then None
    else
      match ParseStringBody(t[1..])
      case None => None
      case Some((s, rest)) => Some(([t[0]] + s, rest))
  }

  /** Each key with the opening quote of its string value. */
  const ModelDataHead := ModelDataKey + "\""
  const ActionDataHead := ActionDataKey + "\""

  /**
   * The client's reading of a frame: `JSON.parse` followed by the two property
   * reads, for frames laid out as `Stringify` lays them out.
   */
  function Parse(frame: string): Option<ReloadMessage> {
    if |frame| < |ModelDataHead| || frame[..|ModelDataHead|] != ModelDataHead then None
    else match ParseStringBody(frame[|ModelDataHead|..])
      case None => None
      case Some((model, rest)) =>
        if |rest| < |ActionDataHead| || rest[..|ActionDataHead|] != ActionDataHead then None
        else match ParseStringBody(rest[|ActionDataHead|..])
          case None => None
          case Some((action, tail)) => if tail == "}" then Some(ReloadMessage(model, action)) else None
  }

  lemma HexRoundTrip(n: nat)
    requires n < 16
    ensures HexValue(HexDigit(n)) == Some(n)
  {
  }

  /** Every escape `QuoteChar` writes reads back as the character it escaped. */
  lemma UnescapeQuoteChar(c: char, u: string)
    requires |QuoteChar(c)| > 1
    ensures Unescape(QuoteChar(c)[1..] + u) == Some((c, |QuoteChar(c)| - 1))
  {
    var q := QuoteChar(c)[1..] + u;
    if c as int < 0x20 && c != '\t' && c != '\n' && c != '\r' && c as int != 0x08 && c as int != 0x0C {
      var hi, lo := c as int / 16, c as int % 16;
      HexRoundTrip(0);
      HexRoundTrip(hi);
      HexRoundTrip(lo);
      assert q[0] == 'u' && q[1] == '0' && q[2] == '0' && q[3] == HexDigit(hi) && q[4] == HexDigit(lo);
      assert ((0 * 16 + 0) * 16 + hi) * 16 + lo == c as int;
    }
  }

  /** A character written as itself needs no escape: it is no quote, no backslash and no control character. */
  lemma QuoteCharPlain(c: char)
    requires |QuoteChar(c)| == 1
    ensures QuoteChar(c) == [c] && c != '"' && c != '\\' && c as int >= 0x20
  {
  }

  /** Reading one quoted character back: what follows it is left for the rest of the string. */
  lemma ParseQuoteChar(c: char, u: string)
    requires ParseStringBody(u).Some?
    ensures ParseStringBody(QuoteChar(c) + u) == Some(([c] + ParseStringBody(u).value.0, ParseStringBody(u).value.1))
  {
    var q := QuoteChar(c);
    var t := q + u;
    if |q| == 1 {
      QuoteCharPlain(c);
      assert t[0] == c && t[1..] == u;
    } else {
      UnescapeQuoteChar(c, u);
      assert q[0] == '\\';
      assert t[0] == '\\' && t[1..] == q[1..] + u;
      assert t[1 + (|q| - 1)..] == u;
    }
  }

  /** A quoted string reads back as itself, leaving what follows its closing quote. */
  lemma {:induction false} ParseQuoteBody(s: string, rest: string)
    ensures ParseStringBody(QuoteBody(s) + "\"" + rest) == Some((s, rest))
  {
    var t := QuoteBody(s) + "\"" + rest;
    if s == [] {
      assert t == "\"" + rest;
      assert t[1..] == rest;
    } else {
      var u := QuoteBody(s[1..]) + "\"" + rest;
      assert t == QuoteChar(s[0]) + u;
      ParseQuoteBody(s[1..], rest);
      ParseQuoteChar(s[0], u);
      assert [s[0]] + s[1..] == s;
    }
  }

  /** What the client reads from a frame is exactly what the server put in it. */
  lemma {:induction false} ParseStringify(m: ReloadMessage)
    ensures Parse(Stringify(m)) == Some(m)
  {
    var frame := Stringify(m);
    var tail := ActionDataHead + (QuoteBody(m.actionData) + "\"" + "}");
    FrameLayout(m);
    assert frame[|ModelDataHead|..] == QuoteBody(m.modelData) + "\"" + tail;
    ParseQuoteBody(m.modelData, tail);
    ParseQuoteBody(m.actionData, "}");
    assert tail[..|ActionDataHead|] == ActionDataHead;
    assert tail[|ActionDataHead|..] == QuoteBody(m.actionData) + "\"" + "}";
  }

  /** The frame split where `Parse` reads it: the model head, the model body, the actions head, the actions body. */
  lemma FrameLayout(m: ReloadMessage)
    ensures Stringify(m)
      == ModelDataHead + (QuoteBody(m.modelData) + "\"" + (ActionDataHead + (QuoteBody(m.actionData) + "\"" + "}")))
  {
    Regroup(ModelDataKey, "\"", QuoteBody(m.modelData), ActionDataKey, QuoteBody(m.actionData), "}");
  }

  /** Concatenation regrouped from the way `Stringify` builds the frame to the way `Parse` reads it. */
  lemma Regroup(open: string, q: string, a: string, sep: string, b: string, close: string)
    ensures open + (q + a + q) + sep + (q + b + q) + close
      == (open + q) + (a + q + ((sep + q) + (b + q + close)))
  {
    var lhs := open + (q + a + q) + sep + (q + b + q) + close;
    assert lhs == open + q + a + q + sep + q + b + q + close;
  }

}
