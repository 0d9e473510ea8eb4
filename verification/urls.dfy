/** `getUrl`: the address a test calls, built from the fixed host and port. */
module Urls {

  const Host: string := "localhost"
  const Port: nat := 3000

  function Digit(d: nat): char
    requires d < 10
  {
    "0123456789"[d]
  }

  function DigitValue(c: char): nat
  {
    if '0' <= c <= '9' then (c - '0') as nat else 0
  }

  /** `%d` of a non-negative integer: its decimal digits, without leading zeros. */
  function DecimalString(n: nat): (s: string)
    ensures |s| >= 1
    ensures forall i :: 0 <= i < |s| ==> '0' <= s[i] <= '9'
    ensures |s| > 1 ==> s[0] != '0'
    decreases n
  {
    if n < 10 then [Digit(n)] else DecimalString(n / 10) + [Digit(n % 10)]
  }

  /** Reading the digits back. */
  function DecimalValue(s: string): nat
    decreases |s|
  {
    if s == [] then 0 else DecimalValue(s[..|s| - 1]) * 10 + DigitValue(s[|s| - 1])
  }

  lemma {:induction false} DecimalRoundTrip(n: nat)
    ensures DecimalValue(DecimalString(n)) == n
    decreases n
  {
    if n >= 10 {
      DecimalRoundTrip(n / 10);
      var s := DecimalString(n);
      assert s[..|s| - 1] == DecimalString(n / 10);
    }
  }

  /** `URL`: `String.format("http://%s:%d", HOST, PORT)`. */
  const BaseUrl: string := "http://" + Host + ":" + DecimalString(Port)

  lemma BaseUrlIsLocalhost3000()
    ensures BaseUrl == "http://localhost:3000"
  {
    assert DecimalString(3) == "3";
    assert DecimalString(30) == "30";
    assert DecimalString(300) == "300";
    assert DecimalString(3000) == "3000";
  }

  predicate StartsWithSlash(path: string)
  {
    |path| > 0 && path[0] == '/'
  }

  /** `getUrl(path)`: the base URL, one "/", then the path with one leading
      "/" removed if there is one. Read back, the part after the base URL and
      its "/" is the path, short of the slash that was dropped. */
  function GetUrl(path: string): (r: string)
    ensures |r| > |BaseUrl| && r[..|BaseUrl| + 1] == BaseUrl + "/"
    ensures StartsWithSlash(path) ==> "/" + r[|BaseUrl| + 1..] == path
    ensures !StartsWithSlash(path) ==> r[|BaseUrl| + 1..] == path
  {
    BaseUrl + "/" + (if StartsWithSlash(path) then path[1..] else path)
  }

  /** Callers may write a path with or without its leading slash. */
  lemma GetUrlIgnoresLeadingSlash(q: string)
    requires !StartsWithSlash(q)
    ensures GetUrl("/" + q) == GetUrl(q)
  {
    assert ("/" + q)[1..] == q;
  }

  /** Only one slash is removed: "//x" keeps its second slash. */
  lemma GetUrlRemovesOneSlashOnly(q: string)
    ensures GetUrl("//" + q) == BaseUrl + "//" + q
  {
    assert ("//" + q)[1..] == "/" + q;
  }
}
