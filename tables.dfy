/**
 * The three symbol tables of encoding/base85/encoding.go, and the facts the
 * codec needs about them: 85 symbols, no symbol twice.
 */
module Base85Tables {
  import opened Base85Spec
  import opened Base85

  /** The bytes of a string of 8-bit characters, as Go's `[]byte(...)` of an ASCII literal. */
  function Bytes(s: string): (b: seq<byte>)
    requires forall i :: 0 <= i < |s| ==> s[i] as int < 256
    ensures |b| == |s| && forall i :: 0 <= i < |s| ==> b[i] as int == s[i] as int
  {
    seq(|s|, i requires 0 <= i < |s| => s[i] as int as byte)
  }

  // The tables are written as runs of consecutive characters; each
  // concatenation spells the literal of the source character for character.

  /** The Ascii85 table: the 85 characters from '!' to 'u'. */
  const Ascii85Symbols: string :=
    "!\"#$%&'()*+,-./" + "0123456789" + ":;<=>?@" + "ABCDEFGHIJKLMNOPQRSTUVWXYZ" + "[\\]^_`" + "abcdefghijklmnopqrstu"

  /** The table of ZeroMQ's Z85. */
  const Z85Symbols: string :=
    DecimalDigits + LowerLetters + UpperLetters + ".-:+=^!/*?&<>()[]{}@%$#"

  /** The table of RFC 1924. */
  const RFC1924Symbols: string :=
    DecimalDigits + UpperLetters + LowerLetters + "!#$%&()*+-;<=>?@^_`{|}~"

  /** Characters `s[i]` are the consecutive codes `first + i`. */
  predicate Run(s: string, first: int)
  {
    forall i :: 0 <= i < |s| ==> s[i] as int == first + i
  }

  predicate Alnum(c: char)
  {
    '0' <= c <= '9' || 'A' <= c <= 'Z' || 'a' <= c <= 'z'
  }

  predicate DistinctChars(s: string)
  {
    forall i, j :: 0 <= i < j < |s| ==> s[i] != s[j]
  }

  lemma RunAppend(a: string, b: string, first: int)
    requires Run(a, first) && Run(b, first + |a|)
    ensures Run(a + b, first)
  {
  }

  lemma RunDistinct(s: string, first: int)
    requires Run(s, first)
    ensures DistinctChars(s)
  {
  }

  lemma DistinctAppend(a: string, b: string)
    requires DistinctChars(a) && DistinctChars(b)
    requires forall i, j :: 0 <= i < |a| && 0 <= j < |b| ==> a[i] != b[j]
    ensures DistinctChars(a + b)
  {
  }

  lemma BytesDistinct(s: string)
    requires forall i :: 0 <= i < |s| ==> s[i] as int < 256
    requires DistinctChars(s)
    ensures Distinct(Bytes(s))
  {
  }

  lemma Ascii85Run()
    ensures Run(Ascii85Symbols, 33)
  {
    var a, b, c, d, e, f := "!\"#$%&'()*+,-./", "0123456789", ":;<=>?@", "ABCDEFGHIJKLMNOPQRSTUVWXYZ", "[\\]^_`", "abcdefghijklmnopqrstu";
    assert Run(a, 33) && Run(b, 48) && Run(c, 58) && Run(d, 65) && Run(e, 91) && Run(f, 97);
    RunAppend(a, b, 33);
    RunAppend(a + b, c, 33);
    RunAppend(a + b + c, d, 33);
    RunAppend(a + b + c + d, e, 33);
    RunAppend(a + b + c + d + e, f, 33);
  }

  /** The Ascii85 table has 85 distinct symbols. */
  lemma Ascii85Table()
    ensures |Ascii85Symbols| == 85 && forall i :: 0 <= i < 85 ==> Ascii85Symbols[i] as int < 256
    ensures Distinct(Bytes(Ascii85Symbols))
  {
    Ascii85Run();
    RunDistinct(Ascii85Symbols, 33);
    BytesDistinct(Ascii85Symbols);
  }

  /** Three runs, of the digits, the upper-case and the lower-case letters in
      some order, followed by distinct punctuation, have no symbol twice. */
  lemma AlnumThenPunctuation(x: string, y: string, z: string, p: string)
    requires |x| + |y| + |z| == 62
    requires forall i :: 0 <= i < |x| ==> Alnum(x[i])
    requires forall i :: 0 <= i < |y| ==> Alnum(y[i])
    requires forall i :: 0 <= i < |z| ==> Alnum(z[i])
    requires DistinctChars(x + y + z)
    requires DistinctChars(p) && forall i :: 0 <= i < |p| ==> !Alnum(p[i])
    ensures DistinctChars(x + y + z + p)
  {
    var a := x + y + z;
    assert forall i :: 0 <= i < |a| ==> Alnum(a[i]);
    DistinctAppend(a, p);
  }

  const DecimalDigits: string := "0123456789"
  const UpperLetters: string := "ABCDEFGHIJKLMNOPQRSTUVWXYZ"
  const LowerLetters: string := "abcdefghijklmnopqrstuvwxyz"

  lemma AlnumRuns()
    ensures |DecimalDigits| == 10 && Run(DecimalDigits, 48)
    ensures |UpperLetters| == 26 && Run(UpperLetters, 65)
    ensures |LowerLetters| == 26 && Run(LowerLetters, 97)
  {
  }

  /** Two runs of alphanumerics from disjoint ranges, and all three together. */
  lemma AlnumDistinct(x: string, y: string, z: string)
    requires Run(x, 48) && |x| == 10
    requires |y| == 26 && (Run(y, 65) || Run(y, 97))
    requires |z| == 26 && (Run(z, 65) || Run(z, 97))
    requires z[0] != y[0]
    ensures DistinctChars(x + y + z) && forall i :: 0 <= i < |x + y + z| ==> Alnum((x + y + z)[i])
  {
    var a := x + y + z;
    forall i, j | 0 <= i < j < |a| ensures a[i] != a[j] {
    }
  }

  lemma Z85Punctuation()
    ensures var p := ".-:+=^!/*?&<>()[]{}@%$#";
      |p| == 23 && DistinctChars(p) && forall i :: 0 <= i < |p| ==> !Alnum(p[i])
  {
  }

  lemma RFC1924Punctuation()
    ensures var p := "!#$%&()*+-;<=>?@^_`{|}~";
      |p| == 23 && DistinctChars(p) && forall i :: 0 <= i < |p| ==> !Alnum(p[i])
  {
  }

  /** The Z85 table has 85 distinct symbols. */
  lemma Z85Table()
    ensures |Z85Symbols| == 85 && forall i :: 0 <= i < 85 ==> Z85Symbols[i] as int < 256
    ensures Distinct(Bytes(Z85Symbols))
  {
    AlnumRuns();
    Z85Punctuation();
    AlnumDistinct(DecimalDigits, LowerLetters, UpperLetters);
    AlnumThenPunctuation(DecimalDigits, LowerLetters, UpperLetters, ".-:+=^!/*?&<>()[]{}@%$#");
    BytesDistinct(Z85Symbols);
  }

  /** The RFC 1924 table has 85 distinct symbols. */
  lemma RFC1924Table()
    ensures |RFC1924Symbols| == 85 && forall i :: 0 <= i < 85 ==> RFC1924Symbols[i] as int < 256
    ensures Distinct(Bytes(RFC1924Symbols))
  {
    AlnumRuns();
    RFC1924Punctuation();
    AlnumDistinct(DecimalDigits, UpperLetters, LowerLetters);
    AlnumThenPunctuation(DecimalDigits, UpperLetters, LowerLetters, "!#$%&()*+-;<=>?@^_`{|}~");
    BytesDistinct(RFC1924Symbols);
  }

  /** The codec of `Ascii85Encoding`. */
  function Ascii85Encoding(): (e: Encoding)
    ensures |e.representation| == 85 && Distinct(e.representation)
  {
    Ascii85Table();
    Encoding(Bytes(Ascii85Symbols))
  }

  /** The codec of `Z85Encoding`. */
  function Z85Encoding(): (e: Encoding)
    ensures |e.representation| == 85 && Distinct(e.representation)
  {
    Z85Table();
    Encoding(Bytes(Z85Symbols))
  }

  /** The codec of `RFC1924Encoding`. */
  function RFC1924Encoding(): (e: Encoding)
    ensures |e.representation| == 85 && Distinct(e.representation)
  {
    RFC1924Table();
    Encoding(Bytes(RFC1924Symbols))
  }

  /** Each of the three codecs decodes what it encodes. */
  lemma TablesRoundTrip(data: seq<byte>)
    requires |data| % 4 == 0
    ensures Decoded(Ascii85Encoding().representation, Encoded(Ascii85Encoding().representation, data).value) == Success(data)
    ensures Decoded(Z85Encoding().representation, Encoded(Z85Encoding().representation, data).value) == Success(data)
    ensures Decoded(RFC1924Encoding().representation, Encoded(RFC1924Encoding().representation, data).value) == Success(data)
  {
    RoundTrip(Ascii85Encoding().representation, data);
    RoundTrip(Z85Encoding().representation, data);
    RoundTrip(RFC1924Encoding().representation, data);
  }
}
