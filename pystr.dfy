/**
 * The Python `str` operations the modelled code applies to protocol
 * text: whitespace classification, `strip`, `split`, `lower`,
 * `startswith`, `int(s, 16)` and the `%0Nd` format.
 */
module PyStr {

  import opened Common

  /** Python's `str.isspace()` for one character. */
  predicate IsSpace(c: char)
  {
    ('\t' <= c <= '\r') || ('\U{1c}' <= c <= ' ') || c == '\U{85}' || c == '\U{a0}'
    || c == '\U{1680}' || ('\U{2000}' <= c <= '\U{200a}') || c == '\U{2028}'
    || c == '\U{2029}' || c == '\U{202f}' || c == '\U{205f}' || c == '\U{3000}'
  }

  predicate AllSpace(s: string)
  {
    forall i :: 0 <= i < |s| ==> IsSpace(s[i])
  }

  predicate NoSpace(s: string)
  {
    forall i :: 0 <= i < |s| ==> !IsSpace(s[i])
  }

  /** Number of whitespace characters at the start of `s`. */
  function Leading(s: string): (n: nat)
    ensures n <= |s|
    ensures forall i :: 0 <= i < n ==> IsSpace(s[i])
    ensures n < |s| ==> !IsSpace(s[n])
  {
    SpaceEnd(s, 0)
  }

  /** The end of the run of whitespace that starts at index `k`. */
  function SpaceEnd(s: string, k: nat): (n: nat)
    requires k <= |s|
    ensures k <= n <= |s|
    ensures forall i :: k <= i < n ==> IsSpace(s[i])
    ensures n < |s| ==> !IsSpace(s[n])
    decreases |s| - k
  {
    if k < |s| && IsSpace(s[k]) then SpaceEnd(s, k + 1) else k
  }

  /** Number of whitespace characters at the end of `s`. */
  function Trailing(s: string): (n: nat)
    ensures n <= |s|
    ensures forall i :: |s| - n <= i < |s| ==> IsSpace(s[i])
    ensures n < |s| ==> !IsSpace(s[|s| - n - 1])
  {
    |s| - SpaceStart(s, |s|)
  }

  /** The start of the run of whitespace that ends just before index `k`. */
  function SpaceStart(s: string, k: nat): (n: nat)
    requires k <= |s|
    ensures n <= k
    ensures forall i :: n <= i < k ==> IsSpace(s[i])
    ensures n > 0 ==> !IsSpace(s[n - 1])
  {
    if k > 0 && IsSpace(s[k - 1]) then SpaceStart(s, k - 1) else k
  }

  /** Python's `str.lstrip()`. */
  function LStrip(s: string): string
  {
    s[Leading(s)..]
  }

  /** Python's `str.strip()`: both ends lose their whitespace. */
  function Strip(s: string): string
  {
    var a := Leading(s);
    if a == |s| then [] else
      var b := Trailing(s);
      assert !IsSpace(s[a]);
      s[a..|s| - b]
  }

  /**
   * What `strip()` leaves: nothing exactly when the string is all
   * whitespace, and otherwise the part between the leading and the
   * trailing runs of whitespace, which starts and ends with a
   * non-whitespace character.
   */
  lemma StripSpec(s: string)
    ensures Strip(s) == [] <==> AllSpace(s)
    ensures var r := Strip(s);
      r != [] ==> !IsSpace(r[0]) && !IsSpace(r[|r| - 1])
    ensures Strip(s) != [] ==> Leading(s) < |s| - Trailing(s) && Strip(s) == s[Leading(s)..|s| - Trailing(s)]
  {
    if Leading(s) < |s| {
      StripNonBlank(s);
    }
  }

  lemma StripNonBlank(s: string)
    requires Leading(s) < |s|
    ensures !AllSpace(s)
    ensures Leading(s) < |s| - Trailing(s) && Strip(s) == s[Leading(s)..|s| - Trailing(s)]
    ensures var r := Strip(s);
      r != [] && !IsSpace(r[0]) && !IsSpace(r[|r| - 1])
  {
    var a, b := Leading(s), Trailing(s);
    assert !IsSpace(s[a]);
    assert a < |s| - b;
    var last := |s| - b - 1;
    assert !IsSpace(s[last]);
    var r := s[a..|s| - b];
    assert Strip(s) == r;
    assert |r| == last - a + 1;
    assert r[0] == s[a] && r[last - a] == s[last];
  }

  /** Length of the run of non-whitespace characters that starts `s`. */
  function WordLen(s: string): (n: nat)
    ensures n <= |s|
    ensures forall i :: 0 <= i < n ==> !IsSpace(s[i])
    ensures n < |s| ==> IsSpace(s[n])
  {
    if |s| > 0 && !IsSpace(s[0]) then 1 + WordLen(s[1..]) else 0
  }

  /** Python's `s.split()`: the maximal runs of non-whitespace characters. */
  function SplitWs(s: string): (r: seq<string>)
    ensures forall k :: 0 <= k < |r| ==> |r[k]| > 0 && NoSpace(r[k])
    decreases |s|
  {
    var t := LStrip(s);
    if t == [] then [] else
      var n := WordLen(t);
      [t[..n]] + SplitWs(t[n..])
  }

  /** `gaps[0] + words[0] + gaps[1] + ... + words[n - 1] + gaps[n]`. */
  function Interleave(gaps: seq<string>, words: seq<string>): (s: string)
    requires |gaps| == |words| + 1
    decreases |words|
  {
    if words == [] then gaps[0] else gaps[0] + words[0] + Interleave(gaps[1..], words[1..])
  }

  /** Runs of whitespace; the ones between two words are not empty. */
  predicate Separators(gaps: seq<string>)
  {
    (forall k :: 0 <= k < |gaps| ==> AllSpace(gaps[k]))
    && (forall k :: 0 < k < |gaps| - 1 ==> gaps[k] != [])
  }

  predicate Words(words: seq<string>)
  {
    forall k :: 0 <= k < |words| ==> |words[k]| > 0 && NoSpace(words[k])
  }

  /** The whitespace that `split()` drops: before, between and after the words. */
  function Gaps(s: string): (g: seq<string>)
    decreases |s|
  {
    var t := LStrip(s);
    if t == [] then [s]
    else [s[..Leading(s)]] + Gaps(t[WordLen(t)..])
  }

  lemma LeadingOf(g: string, w: string)
    requires AllSpace(g) && (w == [] || !IsSpace(w[0]))
    ensures Leading(g + w) == |g| && LStrip(g + w) == w
  {
    var s := g + w;
    assert forall i :: 0 <= i < |g| ==> s[i] == g[i];
    assert w != [] ==> s[|g|] == w[0];
    assert s[|g|..] == w;
  }

  lemma WordLenOf(w: string, r: string)
    requires NoSpace(w) && (r == [] || IsSpace(r[0]))
    ensures WordLen(w + r) == |w|
  {
    var s := w + r;
    assert forall i :: 0 <= i < |w| ==> s[i] == w[i];
    assert r != [] ==> s[|w|] == r[0];
  }

  lemma SeparatorsCons(x: string, g: seq<string>)
    requires AllSpace(x) && Separators(g) && (|g| >= 2 ==> g[0] != [])
    ensures Separators([x] + g)
  {
    var n := [x] + g;
    forall k | 0 <= k < |n| ensures AllSpace(n[k]) {
      if k > 0 {
        assert n[k] == g[k - 1];
      }
    }
    forall k | 0 < k < |n| - 1 ensures n[k] != [] {
      assert n[k] == g[k - 1];
    }
  }

  /**
   * `split()` undoes joining: words put between runs of whitespace, the
   * inner runs non-empty, split back into exactly those words.
   */
  lemma {:induction false} SplitWsJoined(gaps: seq<string>, words: seq<string>)
    requires |gaps| == |words| + 1 && Separators(gaps) && Words(words)
    ensures SplitWs(Interleave(gaps, words)) == words
    decreases |words|
  {
    var s := Interleave(gaps, words);
    if words == [] {
      LeadingOf(gaps[0], []);
      assert gaps[0] + [] == gaps[0];
    } else {
      var w := words[0];
      var rest := Interleave(gaps[1..], words[1..]);
      assert s == gaps[0] + (w + rest);
      LeadingOf(gaps[0], w + rest);
      if |words| > 1 {
        assert gaps[1] != [] && AllSpace(gaps[1]);
        assert rest == gaps[1] + (words[1] + Interleave(gaps[2..], words[2..]));
        assert rest[0] == gaps[1][0];
      } else {
        assert rest == gaps[1];
        assert rest != [] ==> IsSpace(gaps[1][0]);
      }
      WordLenOf(w, rest);
      var t := w + rest;
      assert t[..|w|] == w && t[|w|..] == rest;
      assert Separators(gaps[1..]) by {
        forall k | 0 < k < |gaps[1..]| - 1 ensures gaps[1..][k] != [] {
          assert gaps[1..][k] == gaps[k + 1];
        }
      }
      SplitWsJoined(gaps[1..], words[1..]);
    }
  }

  /**
   * Nothing but whitespace is lost: the string is its words put between
   * the runs of whitespace `Gaps` gives, the inner runs non-empty.
   */
  lemma InterleaveCons(x: string, w: string, g: seq<string>, ws: seq<string>)
    requires |g| == |ws| + 1
    ensures Interleave([x] + g, [w] + ws) == x + w + Interleave(g, ws)
  {
    assert ([x] + g)[1..] == g && ([w] + ws)[1..] == ws;
  }

  lemma Rejoin(s: string, x: string, t: string, w: string, rest: string)
    requires s == x + t && t == w + rest
    ensures s == x + w + rest
  {
  }

  /** `Gaps` gives one run more than there are words, each whitespace, the inner ones not empty. */
  lemma {:induction false} GapsSeparate(s: string)
    ensures |Gaps(s)| == |SplitWs(s)| + 1 && Separators(Gaps(s))
    decreases |s|
  {
    var t := LStrip(s);
    var a := Leading(s);
    assert s == s[..a] + t;
    if t != [] {
      var n := WordLen(t);
      var rest := t[n..];
      GapsSeparate(rest);
      var g, ws := Gaps(rest), SplitWs(rest);
      assert Gaps(s) == [s[..a]] + g;
      assert SplitWs(s) == [t[..n]] + ws;
      if ws != [] {
        assert rest[0] == t[n];
        assert g[0] == rest[..Leading(rest)];
        assert g[0] != [];
      }
      SeparatorsCons(s[..a], g);
    }
  }

  /**
   * Nothing but whitespace is lost: the string is its words put between
   * the runs of whitespace `Gaps` gives.
   */
  lemma {:induction false} SplitWsRebuilds(s: string)
    ensures |Gaps(s)| == |SplitWs(s)| + 1 && Separators(Gaps(s)) && Words(SplitWs(s))
    ensures s == Interleave(Gaps(s), SplitWs(s))
    decreases |s|
  {
    GapsSeparate(s);
    var t := LStrip(s);
    var a := Leading(s);
    if t != [] {
      var n := WordLen(t);
      var rest := t[n..];
      SplitWsRebuilds(rest);
      InterleaveCons(s[..a], t[..n], Gaps(rest), SplitWs(rest));
      Rejoin(s, s[..a], t, t[..n], rest);
    }
  }

  /** The first word of a word followed by whitespace is that word. */
  lemma SplitWsFirst(w: string, tail: string)
    requires |w| > 0 && NoSpace(w) && |tail| > 0 && IsSpace(tail[0])
    ensures |SplitWs(w + tail)| > 0 && SplitWs(w + tail)[0] == w
  {
    var s := w + tail;
    assert Leading(s) == 0;
    assert s[0..] == s;
    assert forall k :: 0 <= k < |w| ==> s[k] == w[k];
    assert IsSpace(s[|w|]);
    assert WordLen(s) == |w|;
    assert s[..|w|] == w;
  }

  /**
   * Python's `s.split(None, maxsplit)`: at most `maxsplit` words are split
   * off; what follows them, without its leading whitespace, is the last
   * element.
   */
  function SplitMax(s: string, maxsplit: nat): (r: seq<string>)
    ensures |r| <= maxsplit + 1
    ensures forall k :: 0 <= k < |r| ==> |r[k]| > 0 && !IsSpace(r[k][0])
    decreases |s|
  {
    var t := LStrip(s);
    if t == [] then []
    else if maxsplit == 0 then [t]
    else
      var n := WordLen(t);
      [t[..n]] + SplitMax(t[n..], maxsplit - 1)
  }

  /** Python's `str.lower()` on one character of the ISO-8859-1 range. */
  function LowerChar(c: char): char
  {
    if ('A' <= c <= 'Z') || ('\U{c0}' <= c <= '\U{de}' && c != '\U{d7}') then
      (c as int + 32) as char
    else c
  }

  function Lower(s: string): (r: string)
    ensures |r| == |s|
  {
    seq(|s|, i requires 0 <= i < |s| => LowerChar(s[i]))
  }

  predicate StartsWith(s: string, prefix: string)
  {
    |prefix| <= |s| && s[..|prefix|] == prefix
  }

  // ----- int(s, 16) -------------------------------------------------------

  predicate IsHexDigit(c: char)
  {
    ('0' <= c <= '9') || ('a' <= c <= 'f') || ('A' <= c <= 'F')
  }

  function DigitValue(c: char): (d: nat)
    requires IsHexDigit(c)
    ensures d < 16
  {
    if '0' <= c <= '9' then c as int - '0' as int
    else if 'a' <= c <= 'f' then c as int - 'a' as int + 10
    else c as int - 'A' as int + 10
  }

  predicate DigitsOrUnderscores(s: string)
  {
    forall i :: 0 <= i < |s| ==> IsHexDigit(s[i]) || s[i] == '_'
  }

  /**
   * Hexadecimal digits in which every underscore is followed by a digit
   * (so no doubled and no trailing underscore).
   */
  predicate Grouped(s: string)
  {
    |s| > 0 && DigitsOrUnderscores(s)
    && forall i :: 0 <= i < |s| && s[i] == '_' ==> i + 1 < |s| && IsHexDigit(s[i + 1])
  }

  /** The value of the digits of `s`, underscores ignored. */
  function GroupValue(s: string): nat
    requires DigitsOrUnderscores(s)
  {
    if s == [] then 0
    else
      var init := s[..|s| - 1];
      assert DigitsOrUnderscores(init) by {
        assert forall i :: 0 <= i < |init| ==> init[i] == s[i];
      }
      if s[|s| - 1] == '_' then GroupValue(init)
      else GroupValue(init) * 16 + DigitValue(s[|s| - 1])
  }

  /** Unsigned part of `int(s, 16)`: an optional `0x` prefix, then grouped digits. */
  function Magnitude(s: string): Option<nat>
  {
    if |s| >= 2 && s[0] == '0' && (s[1] == 'x' || s[1] == 'X') then
      if Grouped(s[2..]) then Some(GroupValue(s[2..])) else None
    else if Grouped(s) && IsHexDigit(s[0]) then Some(GroupValue(s))
    else None
  }

  /**
   * Python 3's `int(s, 16)`: surrounding whitespace is ignored, an optional
   * sign, an optional `0x`/`0X` prefix (optionally followed by one
   * underscore), then hexadecimal digits with single underscores between
   * them. `None` stands for the `ValueError` Python raises.
   */
  function ParseInt16(s: string): Option<int>
  {
    var t := Strip(s);
    if |t| > 0 && (t[0] == '-' || t[0] == '+') then
      match Magnitude(t[1..])
      case None => None
      case Some(v) => var x: int := v; Some(if t[0] == '-' then -x else x)
    else
      match Magnitude(t)
      case None => None
      case Some(v) => Some(v)
  }

  function HexChar(d: nat): (c: char)
    requires d < 16
    ensures IsHexDigit(c) && DigitValue(c) == d
  {
    "0123456789abcdef"[d]
  }

  /** Lower-case hexadecimal rendering of `n` without leading zeros. */
  function HexString(n: nat): (s: string)
    ensures |s| > 0 && forall i :: 0 <= i < |s| ==> IsHexDigit(s[i])
    decreases n
  {
    if n < 16 then [HexChar(n)] else HexString(n / 16) + [HexChar(n % 16)]
  }

  lemma {:induction false} HexStringValue(n: nat)
    ensures GroupValue(HexString(n)) == n
    decreases n
  {
    if n >= 16 {
      HexStringValue(n / 16);
      var s := HexString(n);
      assert s[..|s| - 1] == HexString(n / 16);
    }
  }

  /** A string with no whitespace at either end is its own `strip()`. */
  lemma StripTight(s: string)
    requires |s| > 0 && !IsSpace(s[0]) && !IsSpace(s[|s| - 1])
    ensures Strip(s) == s
  {
    assert Leading(s) == 0;
    assert Trailing(s) == 0;
  }

  /** `int(HexString(n), 16)` gives back `n`. */
  lemma ParseHexString(n: nat)
    ensures ParseInt16(HexString(n)) == Some(n)
  {
    var h := HexString(n);
    HexMagnitude(n);
    StripTight(h);
    assert !(h[0] == '-' || h[0] == '+');
  }

  /** The digits alone are read back by the unsigned part. */
  lemma HexMagnitude(n: nat)
    ensures var h := HexString(n); Magnitude(h) == Some(n) && !IsSpace(h[0]) && !IsSpace(h[|h| - 1])
  {
    HexStringValue(n);
    var h := HexString(n);
    HexGrouped(h);
    assert IsHexDigit(h[0]) && IsHexDigit(h[|h| - 1]);
    assert |h| >= 2 ==> IsHexDigit(h[1]);
  }

  lemma HexGrouped(h: string)
    requires |h| > 0 && forall i :: 0 <= i < |h| ==> IsHexDigit(h[i])
    ensures Grouped(h)
  {
  }

  /** The `0x` prefix is accepted and ignored. */
  lemma ParsePrefixedHexString(n: nat)
    ensures ParseInt16("0x" + HexString(n)) == Some(n)
  {
    HexStringValue(n);
    var h := HexString(n);
    var x := "0x" + h;
    assert Grouped(x[2..]) by { assert x[2..] == h; }
    StripTight(x);
    assert Magnitude(x) == Some(n);
  }

  /**
   * Python 3 reads an underscore between two digits as a separator, so
   * "1_0" is sixteen; a doubled underscore raises.
   */
  lemma ParseUnderscored()
    ensures ParseInt16("1_0") == Some(16)
    ensures ParseInt16("1__0") == None
  {
    var s := "1_0";
    StripTight(s);
    assert Grouped(s);
    assert s[..2] == "1_" && s[..2][..1] == "1" && "1"[..0] == [];
    assert GroupValue(s) == 16;
    var d := "1__0";
    StripTight(d);
    assert d[1] == '_' && !IsHexDigit(d[2]);
  }

  /** A leading minus sign negates the value. */
  lemma ParseNegatedHexString(n: nat)
    ensures ParseInt16("-" + HexString(n)) == Some(-(n as int))
  {
    HexMagnitude(n);
    ParseNegated(HexString(n), n);
  }

  lemma ParseNegated(h: string, v: nat)
    requires |h| > 0 && Magnitude(h) == Some(v) && !IsSpace(h[|h| - 1])
    ensures ParseInt16("-" + h) == Some(-(v as int))
  {
    var m := "-" + h;
    assert m[1..] == h;
    assert m[|m| - 1] == h[|h| - 1];
    StripTight(m);
  }

  // ----- "%0Nd" --------------------------------------------------------------

  predicate IsDecDigit(c: char)
  {
    '0' <= c <= '9'
  }

  function DecChar(d: nat): (c: char)
    requires d < 10
    ensures IsDecDigit(c) && c as int - '0' as int == d
  {
    "0123456789"[d]
  }

  /** Decimal rendering of `n` without leading zeros (Python's `"%d"`). */
  function Decimal(n: nat): (s: string)
    ensures |s| > 0
    decreases n
  {
    if n < 10 then [DecChar(n)] else Decimal(n / 10) + [DecChar(n % 10)]
  }

  function Zeros(k: nat): (s: string)
    ensures |s| == k && forall i :: 0 <= i < k ==> s[i] == '0'
  {
    seq(k, _ => '0')
  }

  /** Python's `"%0*d" % (width, n)` for a non-negative `n`. */
  function ZeroPad(n: nat, width: nat): string
  {
    var d := Decimal(n);
    if |d| < width then Zeros(width - |d|) + d else d
  }

  /** The value a string of decimal digits denotes. */
  function DecimalValue(s: string): nat
    requires forall i :: 0 <= i < |s| ==> IsDecDigit(s[i])
  {
    if s == [] then 0
    else
      var init := s[..|s| - 1];
      assert forall i :: 0 <= i < |init| ==> init[i] == s[i];
      assert IsDecDigit(s[|s| - 1]);
      DecimalValue(init) * 10 + (s[|s| - 1] as int - '0' as int)
  }

  lemma {:induction false} DecimalValueOf(n: nat)
    ensures forall i :: 0 <= i < |Decimal(n)| ==> IsDecDigit(Decimal(n)[i])
    ensures DecimalValue(Decimal(n)) == n
    decreases n
  {
    if n >= 10 {
      DecimalValueOf(n / 10);
      var s := Decimal(n);
      assert s[..|s| - 1] == Decimal(n / 10);
    }
  }

  lemma {:induction false} LeadingZerosValue(k: nat, s: string)
    requires forall i :: 0 <= i < |s| ==> IsDecDigit(s[i])
    ensures forall i :: 0 <= i < |Zeros(k) + s| ==> IsDecDigit((Zeros(k) + s)[i])
    ensures DecimalValue(Zeros(k) + s) == DecimalValue(s)
    decreases |s|, k
  {
    var z := Zeros(k) + s;
    if s == [] {
      assert z == Zeros(k);
      if k > 0 {
        assert z[..k - 1] == Zeros(k - 1) + [];
        LeadingZerosValue(k - 1, []);
      }
    } else {
      assert z[..|z| - 1] == Zeros(k) + s[..|s| - 1];
      LeadingZerosValue(k, s[..|s| - 1]);
    }
  }

  /** `%0Nd` renders `n` on at least `width` digits and reads back as `n`. */
  lemma ZeroPadValue(n: nat, width: nat)
    ensures |ZeroPad(n, width)| == if |Decimal(n)| < width then width else |Decimal(n)|
    ensures forall i :: 0 <= i < |ZeroPad(n, width)| ==> IsDecDigit(ZeroPad(n, width)[i])
    ensures DecimalValue(ZeroPad(n, width)) == n
  {
    DecimalValueOf(n);
    var d := Decimal(n);
    if |d| < width {
      LeadingZerosValue(width - |d|, d);
    }
  }

  /** Numbers below `10^k` take at most `k` digits, and zero takes one. */
  lemma {:induction false} DecimalLength(n: nat, k: nat)
    requires n < Pow10(k)
    ensures |Decimal(n)| <= if k == 0 then 1 else k
    decreases k
  {
    if k > 0 && n >= 10 {
      DecimalLength(n / 10, k - 1);
    }
  }

  function Pow10(k: nat): nat
  {
    if k == 0 then 1 else 10 * Pow10(k - 1)
  }
}
