/** The text layer of the connection-table writer: Python's `%i` and `%Ns`
    conversions (decimal digits, left padding with spaces) and the two ways a
    reader takes a connection-table line apart again, by whitespace-separated
    tokens (V3000) and by fixed columns (V2000). */
module SdfText {
  import opened Outcomes

  // ---------------------------------------------------------------------------------------------
  // Decimal digits

  predicate IsDigit(c: char) {
    '0' <= c <= '9'
  }

  function Digit(d: nat): (c: char)
    requires d < 10
    ensures IsDigit(c)
  {
    (('0' as int) + d) as char
  }

  function DigitValue(c: char): nat
    requires IsDigit(c)
  {
    (c as int) - ('0' as int)
  }

  predicate AllDigits(s: string) {
    forall k :: 0 <= k < |s| ==> IsDigit(s[k])
  }

  /** `"%i" % n` for a non-negative `n`: its decimal digits, most significant first, no leading zero. */
  function Dec(n: nat): (r: string)
    ensures |r| > 0 && AllDigits(r)
    decreases n
  {
    if n < 10 then [Digit(n)] else Dec(n / 10) + [Digit(n % 10)]
  }

  /** A reader's `int(s)` restricted to plain digit strings; None for anything else (including ""). */
  function ParseNat(s: string): Option<nat>
    decreases |s|
  {
    if |s| == 0 || !IsDigit(s[|s| - 1]) then None
    else if |s| == 1 then Some(DigitValue(s[0]))
    else
      match ParseNat(s[..|s| - 1])
      case None => None
      case Some(v) => Some(10 * v + DigitValue(s[|s| - 1]))
  }

  /** Reading a written number back gives the number. */
  lemma {:induction false} DecRoundTrip(n: nat)
    ensures ParseNat(Dec(n)) == Some(n)
    decreases n
  {
    if n >= 10 {
      var s := Dec(n);
      DecRoundTrip(n / 10);
      assert s[..|s| - 1] == Dec(n / 10);
    }
  }

  /** Different numbers are written differently. */
  lemma DecInjective(n: nat, m: nat)
    requires Dec(n) == Dec(m)
    ensures n == m
  {
    DecRoundTrip(n);
    DecRoundTrip(m);
  }

  /** A number below 1000 takes at most three digits, so it fits a `%3i` column. */
  lemma DecFitsThree(n: nat)
    requires n < 1000
    ensures |Dec(n)| <= 3
  {
    if n >= 10 {
      assert |Dec(n)| == |Dec(n / 10)| + 1;
      if n / 10 >= 10 {
        assert |Dec(n / 10)| == |Dec(n / 10 / 10)| + 1;
        assert n / 10 / 10 < 10;
      }
    }
  }

  // ---------------------------------------------------------------------------------------------
  // Padding

  function Spaces(k: nat): (r: string)
    ensures |r| == k && AllSpaces(r)
  {
    seq(k, _ => ' ')
  }

  predicate AllSpaces(s: string) {
    forall k :: 0 <= k < |s| ==> s[k] == ' '
  }

  /** The spaces `"%Ns"` puts before `s` in a field of width `w`. */
  function Padding(s: string, w: nat): (r: string)
    ensures AllSpaces(r)
    ensures |r| == if |s| < w then w - |s| else 0
  {
    if |s| < w then Spaces(w - |s|) else ""
  }

  /** `"%Ns" % s` (and the width of `%Ni`): `s` right-aligned in a field of width `w`, never cut. */
  function PadLeft(s: string, w: nat): (r: string)
    ensures |r| == if |s| < w then w else |s|
  {
    Padding(s, w) + s
  }

  /** Leading spaces dropped. */
  function TrimLeft(s: string): (r: string)
    decreases |s|
  {
    if |s| > 0 && s[0] == ' ' then TrimLeft(s[1..]) else s
  }

  lemma {:induction false} TrimLeftSpaces(pre: string, s: string)
    requires AllSpaces(pre) && (|s| == 0 || s[0] != ' ')
    ensures TrimLeft(pre + s) == s
    decreases |pre|
  {
    if |pre| > 0 {
      assert (pre + s)[1..] == pre[1..] + s;
      TrimLeftSpaces(pre[1..], s);
    } else {
      assert pre + s == s;
    }
  }

  /** A column padded by `%Ni` reads back as the number. */
  lemma PaddedNumberReadsBack(n: nat, w: nat)
    ensures ParseNat(TrimLeft(PadLeft(Dec(n), w))) == Some(n)
  {
    TrimLeftSpaces(Padding(Dec(n), w), Dec(n));
    DecRoundTrip(n);
  }

  // ---------------------------------------------------------------------------------------------
  // Tokens

  predicate NoSpace(w: string) {
    forall k :: 0 <= k < |w| ==> w[k] != ' '
  }

  /** Length of the run of non-space characters `s` starts with. */
  function WordLen(s: string): (k: nat)
    ensures k <= |s|
    ensures |s| > 0 && s[0] != ' ' ==> k > 0
    decreases |s|
  {
    if |s| == 0 || s[0] == ' ' then 0 else 1 + WordLen(s[1..])
  }

  /** `line.split()` for lines made of spaces and printable characters: the maximal runs of non-space
      characters, left to right. */
  function Tokens(s: string): seq<string>
    decreases |s|
  {
    if |s| == 0 then []
    else if s[0] == ' ' then Tokens(s[1..])
    else
      var k := WordLen(s);
      [s[..k]] + Tokens(s[k..])
  }

  lemma {:induction false} WordLenOf(w: string, rest: string)
    requires NoSpace(w) && (|rest| == 0 || rest[0] == ' ')
    ensures WordLen(w + rest) == |w|
    decreases |w|
  {
    if |w| > 0 {
      assert (w + rest)[1..] == w[1..] + rest;
      WordLenOf(w[1..], rest);
    } else {
      assert w + rest == rest;
    }
  }

  lemma {:induction false} TokensAfterSpaces(pre: string, s: string)
    requires AllSpaces(pre)
    ensures Tokens(pre + s) == Tokens(s)
    decreases |pre|
  {
    if |pre| > 0 {
      assert (pre + s)[1..] == pre[1..] + s;
      TokensAfterSpaces(pre[1..], s);
    } else {
      assert pre + s == s;
    }
  }

  /** A word followed by a space (or by nothing) is the next token. */
  lemma TokensWord(pre: string, w: string, rest: string)
    requires AllSpaces(pre) && |w| > 0 && NoSpace(w) && (|rest| == 0 || rest[0] == ' ')
    ensures Tokens(pre + w + rest) == [w] + Tokens(rest)
  {
    assert pre + w + rest == pre + (w + rest);
    TokensAfterSpaces(pre, w + rest);
    WordLenOf(w, rest);
    assert (w + rest)[..|w|] == w;
    assert (w + rest)[|w|..] == rest;
  }

  /** A line as a reader sees it: fields, each some spaces followed by a word. */
  datatype Field = Field(lead: string, text: string)

  /** A `%Ni` or `%Ns` field after `lead`: the text right-aligned in width `w`. */
  function Padded(lead: string, text: string, w: nat): Field {
    Field(lead + Padding(text, w), text)
  }

  function Render(fs: seq<Field>): string
    decreases |fs|
  {
    if |fs| == 0 then "" else fs[0].lead + fs[0].text + Render(fs[1..])
  }

  function Texts(fs: seq<Field>): (r: seq<string>)
    ensures |r| == |fs|
    ensures forall k :: 0 <= k < |fs| ==> r[k] == fs[k].text
    decreases |fs|
  {
    if |fs| == 0 then [] else [fs[0].text] + Texts(fs[1..])
  }

  /** Every field is a word after spaces, and the spaces are there except before the first. */
  predicate Separated(fs: seq<Field>) {
    forall k :: 0 <= k < |fs| ==>
      AllSpaces(fs[k].lead) && |fs[k].text| > 0 && NoSpace(fs[k].text) && (k > 0 ==> |fs[k].lead| > 0)
  }

  /** Splitting a rendered line on whitespace gives back its fields' words. */
  lemma {:induction false} TokensRender(fs: seq<Field>)
    requires Separated(fs)
    ensures Tokens(Render(fs)) == Texts(fs)
    decreases |fs|
  {
    if |fs| > 0 {
      var rest := Render(fs[1..]);
      if |fs| > 1 {
        assert fs[1..][0] == fs[1];
        assert rest == fs[1].lead + fs[1].text + Render(fs[2..]) by {
          assert fs[1..][1..] == fs[2..];
        }
      }
      TokensWord(fs[0].lead, fs[0].text, rest);
      TokensRender(fs[1..]);
    }
  }
}
