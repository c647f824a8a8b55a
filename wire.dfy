/**
 * The text `JSON.stringify` produces for the three replies of the device
 * channel (test.js:170, 173, 202), and how a device reads that text back.
 */
module Wire {
  import opened Wrappers
  import opened Telemetry

  /** The decimal digits of a non-negative integer, as JavaScript prints it:
      no leading zero, and read back they give the integer. */
  function Decimal(n: nat): (d: string)
    ensures IsDecimal(d) && DecimalValue(d) == n
    ensures d[0] == '0' ==> d == "0"
    decreases n
  {
    if n < 10 then [DigitChar(n)]
    else
      var high := Decimal(n / 10);
      var d := high + [DigitChar(n % 10)];
      assert d[..|d| - 1] == high;
      d
  }

  function DigitChar(n: nat): (c: char)
    requires n < 10
    ensures '0' <= c <= '9' && DigitValue(c) == n
  {
    "0123456789"[n]
  }

  /** A non-empty string of decimal digits. */
  predicate IsDecimal(d: string)
  {
    |d| >= 1 && forall k :: 0 <= k < |d| ==> '0' <= d[k] <= '9'
  }

  /** The value a string of decimal digits denotes. */
  function DecimalValue(d: string): nat
    decreases |d|
  {
    if d == [] then 0
    else 10 * DecimalValue(d[..|d| - 1]) + DigitValue(d[|d| - 1])
  }

  function DigitValue(c: char): nat
  {
    if '0' <= c <= '9' then (c as int - '0' as int) as nat else 0
  }

  const AuthorizedPrefix := "{\"status\":\"Authorized\",\"deviceId\":"
  const UnauthorizedText := "{\"status\":\"Unauthorized\"}"
  const InvalidJsonText := "{\"error\":\"Invalid JSON format\"}"

  /** How a device reads a reply: one of the two fixed texts, or the
      Authorized prefix, a decimal id and the closing brace. */
  function Decode(text: string): Option<Reply>
  {
    if text == UnauthorizedText then Some(Unauthorized)
    else if text == InvalidJsonText then Some(InvalidJson)
    else if |text| > |AuthorizedPrefix| + 1 && text[..|AuthorizedPrefix|] == AuthorizedPrefix
            && text[|text| - 1] == '}' && IsDecimal(text[|AuthorizedPrefix|..|text| - 1])
    then Some(Authorized(DecimalValue(text[|AuthorizedPrefix|..|text| - 1])))
    else None
  }

  /** `JSON.stringify` of each reply object; a device reading the text gets
      the reply back. */
  function Encode(r: Reply): (text: string)
    ensures Decode(text) == Some(r)
  {
    match r
    case Authorized(id) =>
      var text := AuthorizedPrefix + Decimal(id) + "}";
      assert text[..|AuthorizedPrefix|] == AuthorizedPrefix;
      assert text[|AuthorizedPrefix|..|text| - 1] == Decimal(id);
      text
    case Unauthorized => UnauthorizedText
    case InvalidJson => InvalidJsonText
  }

  /** Different replies are sent as different texts. */
  lemma EncodeInjective(a: Reply, b: Reply)
    requires Encode(a) == Encode(b)
    ensures a == b
  {
  }
}
