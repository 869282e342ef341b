/**
 * JavaScript strings as the browser sees them: sequences of UTF-16 code
 * units. A code unit may be half of a surrogate pair, or a lone surrogate,
 * which Dafny's `char` (a Unicode scalar value) cannot represent.
 */
module JsString {

  /** One UTF-16 code unit. */
  type CodeUnit = u: int | 0 <= u < 0x1_0000

  /** One octet. */
  type Byte = b: int | 0 <= b < 0x100

  type JsStr = seq<CodeUnit>

  /** The code units of a string literal of ASCII characters. */
  function Ascii(s: string): (r: JsStr)
    requires forall i :: 0 <= i < |s| ==> s[i] as int < 0x80
    ensures |r| == |s| && forall i :: 0 <= i < |s| ==> r[i] == s[i] as int
  {
    seq(|s|, i requires 0 <= i < |s| => s[i] as int)
  }

  /** Every code unit fits in one octet: what `btoa` accepts. */
  predicate Latin1(s: JsStr)
  {
    forall i :: 0 <= i < |s| ==> s[i] < 0x100
  }

  lemma {:induction false} Latin1Append(a: JsStr, b: JsStr)
    ensures Latin1(a + b) <==> Latin1(a) && Latin1(b)
  {
    if Latin1(a) && Latin1(b) {
      forall i | 0 <= i < |a + b| ensures (a + b)[i] < 0x100 {
        if i >= |a| { assert (a + b)[i] == b[i - |a|]; }
      }
    }
    if Latin1(a + b) {
      forall i | 0 <= i < |a| ensures a[i] < 0x100 {
        assert (a + b)[i] == a[i];
      }
      forall i | 0 <= i < |b| ensures b[i] < 0x100 {
        assert (a + b)[|a| + i] == b[i];
      }
    }
  }

  /** The octets of a Latin-1 string, one per code unit. */
  function ToBytes(s: JsStr): (b: seq<Byte>)
    requires Latin1(s)
    ensures |b| == |s| && forall i :: 0 <= i < |s| ==> b[i] == s[i]
  {
    seq(|s|, i requires 0 <= i < |s| => s[i])
  }

  /** The string with one code unit per octet, as `atob` returns it. */
  function FromBytes(b: seq<Byte>): (s: JsStr)
    ensures Latin1(s) && ToBytes(s) == b
  {
    seq(|b|, i requires 0 <= i < |b| => b[i])
  }
}
