/**
 * Character-level text handling shared by both sides of the bridge:
 * integer rendering as `printf("%d")`, `printf("%x")` and `println(uint8_t)` do it
 * on the firmware, integer parsing as Python's `int(tok)` and `int(tok, 16)`
 * do it (a simplified grammar), `str.split()`, `str.rsplit(' ', 1)` and `str.startswith`.
 */
module Text {
  import opened Common

  /** The two radixes the system uses. */
  datatype Base = Decimal | Hexadecimal {
    function Radix(): nat
    {
      if Decimal? then 10 else 16
    }

    /** Whether `c` is a digit in this base (hex digits in either case). */
    predicate Accepts(c: char)
    {
      ('0' <= c <= '9') || (Hexadecimal? && ('a' <= c <= 'f' || 'A' <= c <= 'F'))
    }

    function Value(c: char): (v: nat)
      requires Accepts(c)
      ensures v < Radix()
    {
      if '0' <= c <= '9' then c as int - '0' as int
      else if 'a' <= c <= 'f' then c as int - 'a' as int + 10
      else c as int - 'A' as int + 10
    }

    /** The digit for `d`; `upper` picks `%X` over `%x`. */
    function Digit(d: nat, upper: bool): (c: char)
      requires d < Radix()
      ensures Accepts(c) && Value(c) == d
    {
      if d < 10 then ('0' as int + d) as char
      else if upper then ('A' as int + d - 10) as char
      else ('a' as int + d - 10) as char
    }
  }

  /** Whitespace as Python's `str.split()` sees it, restricted to ASCII. */
  predicate IsSpace(c: char)
  {
    c == ' ' || 9 <= c as int <= 13 || 28 <= c as int <= 31
  }

  predicate NoSpace(s: string)
  {
    forall i :: 0 <= i < |s| ==> !IsSpace(s[i])
  }

  predicate AllDigits(s: string, b: Base)
  {
    forall i :: 0 <= i < |s| ==> b.Accepts(s[i])
  }

  predicate StartsWith(s: string, prefix: string)
  {
    |prefix| <= |s| && s[..|prefix|] == prefix
  }

  /** A text whose first character differs from the prefix's does not start with it. */
  lemma FirstCharDiffers(s: string, prefix: string)
    requires |s| > 0 && |prefix| > 0 && s[0] != prefix[0]
    ensures !StartsWith(s, prefix)
  {
    if |prefix| <= |s| {
      assert s[..|prefix|][0] == s[0];
    }
  }

  // ---------------------------------------------------------------------------
  // Integers

  /** The value of a digit string, most significant digit first. */
  function DigitsValue(s: string, b: Base): nat
    requires AllDigits(s, b)
  {
    if s == [] then 0 else DigitsValue(s[..|s| - 1], b) * b.Radix() + b.Value(s[|s| - 1])
  }

  /**
   * `int(tok)` (Decimal) or `int(tok, 16)` (Hexadecimal): an optional minus sign
   * followed by at least one digit; anything else raises.
   */
  function ParseInt(tok: string, b: Base): (r: Option<int>)
    ensures r.Some? ==> |tok| > 0 && (r.value < 0 ==> tok[0] == '-')
    ensures r.None? <==> !(|tok| > 0 && (AllDigits(tok, b) || (tok[0] == '-' && |tok| > 1 && AllDigits(tok[1..], b))))
  {
    if |tok| > 0 && tok[0] == '-' then
      if |tok| > 1 && AllDigits(tok[1..], b) then
        var magnitude: int := DigitsValue(tok[1..], b);
        Some(-magnitude)
      else None
    else if |tok| > 0 && AllDigits(tok, b) then Some(DigitsValue(tok, b))
    else None
  }

  /** The digits of `n` with no padding and no leading zero, as `%u`, `%x` and `%X` print them. */
  function FormatNat(n: nat, b: Base, upper: bool): (s: string)
    ensures |s| > 0 && AllDigits(s, b) && NoSpace(s) && s[0] != '-'
    decreases n
  {
    if n < b.Radix() then [b.Digit(n, upper)]
    else FormatNat(n / b.Radix(), b, upper) + [b.Digit(n % b.Radix(), upper)]
  }

  /** A signed integer in decimal, with a leading `-` when negative. */
  function FormatInt(n: int): (s: string)
    ensures |s| > 0 && NoSpace(s)
  {
    if n < 0 then "-" + FormatNat(-n, Decimal, false) else FormatNat(n, Decimal, false)
  }

  lemma {:induction false} FormatNatValue(n: nat, b: Base, upper: bool)
    ensures DigitsValue(FormatNat(n, b, upper), b) == n
    decreases n
  {
    var s := FormatNat(n, b, upper);
    if n >= b.Radix() {
      FormatNatValue(n / b.Radix(), b, upper);
      assert s[..|s| - 1] == FormatNat(n / b.Radix(), b, upper);
      if b.Decimal? {
        assert n == (n / 10) * 10 + n % 10;
      } else {
        assert n == (n / 16) * 16 + n % 16;
      }
    }
  }

  /** Parsing undoes rendering, for every integer and every hex case. */
  lemma ParseFormatNat(n: nat, b: Base, upper: bool)
    ensures ParseInt(FormatNat(n, b, upper), b) == Some(n)
  {
    FormatNatValue(n, b, upper);
  }

  lemma ParseFormatInt(n: int)
    ensures ParseInt(FormatInt(n), Decimal) == Some(n)
  {
    var tok := FormatInt(n);
    if n < 0 {
      var digits := FormatNat(-n, Decimal, false);
      FormatNatValue(-n, Decimal, false);
      assert tok == "-" + digits;
      assert tok[0] == '-' && |tok| > 1;
      assert tok[1..] == digits;
    } else {
      FormatNatValue(n, Decimal, false);
    }
  }

  // ---------------------------------------------------------------------------
  // str.split() and its inverse

  /** The length of the leading run of non-whitespace characters of `s`. */
  function TokenEnd(s: string): (n: nat)
    ensures n <= |s| && NoSpace(s[..n]) && (n < |s| ==> IsSpace(s[n]))
  {
    if s == [] || IsSpace(s[0]) then 0
    else
      var m := TokenEnd(s[1..]);
      assert s[..1 + m] == [s[0]] + s[1..][..m];
      1 + m
  }

  /** `s.split()`: the maximal runs of non-whitespace characters, in order. */
  function Split(s: string): (r: seq<string>)
    ensures forall i :: 0 <= i < |r| ==> r[i] != [] && NoSpace(r[i])
    decreases |s|
  {
    if s == [] then []
    else if IsSpace(s[0]) then Split(s[1..])
    else
      var n := TokenEnd(s);
      [s[..n]] + Split(s[n..])
  }

  /** `' '.join(tokens)`. */
  function Join(tokens: seq<string>): string
  {
    if tokens == [] then ""
    else if |tokens| == 1 then tokens[0]
    else tokens[0] + " " + Join(tokens[1..])
  }

  lemma {:induction false} TokenEndPrefix(t: string, rest: string)
    requires NoSpace(t)
    requires rest == [] || IsSpace(rest[0])
    ensures TokenEnd(t + rest) == |t|
    decreases |t|
  {
    if t != [] {
      assert (t + rest)[1..] == t[1..] + rest;
      TokenEndPrefix(t[1..], rest);
    }
  }

  /** Splitting a space-joined list of non-empty, blank-free tokens gives the tokens back. */
  lemma {:induction false} SplitJoin(tokens: seq<string>)
    requires forall i :: 0 <= i < |tokens| ==> tokens[i] != [] && NoSpace(tokens[i])
    ensures Split(Join(tokens)) == tokens
    decreases |tokens|
  {
    if tokens == [] {
    } else if |tokens| == 1 {
      var t := tokens[0];
      TokenEndPrefix(t, []);
      assert t + [] == t;
      assert t[..|t|] == t;
      assert t[|t|..] == [];
    } else {
      var t, rest := tokens[0], Join(tokens[1..]);
      var s := Join(tokens);
      assert s == t + (" " + rest);
      TokenEndPrefix(t, " " + rest);
      assert s[..|t|] == t;
      assert s[|t|..] == " " + rest;
      assert (" " + rest)[1..] == rest;
      SplitJoin(tokens[1..]);
    }
  }

  /**
   * The text with leading and trailing whitespace removed and every inner run of
   * whitespace replaced by one space, read character by character.
   */
  function Squeeze(s: string): string
    decreases |s|, 1
  {
    if s == [] then []
    else if IsSpace(s[0]) then Squeeze(s[1..])
    else SqueezeWord(s)
  }

  /** `Squeeze` inside a word: copy up to the next whitespace, then one space if more words follow. */
  function SqueezeWord(s: string): string
    decreases |s|, 0
  {
    if s == [] then []
    else if IsSpace(s[0]) then Separated(Squeeze(s[1..]))
    else [s[0]] + SqueezeWord(s[1..])
  }

  /** A space before `t`, unless `t` is empty. */
  function Separated(t: string): string
  {
    if t == [] then [] else " " + t
  }

  /** A word runs to the first whitespace, then the squeezed rest follows after one space. */
  lemma {:induction false} SqueezeWordToken(s: string)
    ensures SqueezeWord(s) == s[..TokenEnd(s)] + Separated(Squeeze(s[TokenEnd(s)..]))
    decreases |s|
  {
    if s != [] && !IsSpace(s[0]) {
      var m := TokenEnd(s[1..]);
      SqueezeWordToken(s[1..]);
      assert [s[0]] + s[1..][..m] == s[..1 + m];
      assert s[1..][m..] == s[1 + m..];
    }
  }

  /**
   * `split()` keeps every word of any text, in order and nothing else: joining its
   * tokens with single spaces is the text with its whitespace runs squeezed.
   */
  lemma {:induction false} JoinSplit(s: string)
    ensures Join(Split(s)) == Squeeze(s)
    decreases |s|
  {
    if s != [] {
      if IsSpace(s[0]) {
        JoinSplit(s[1..]);
      } else {
        var n := TokenEnd(s);
        var rest := Split(s[n..]);
        SqueezeWordToken(s);
        JoinSplit(s[n..]);
        assert Split(s) == [s[..n]] + rest;
        if rest == [] {
          assert Join([s[..n]] + rest) == s[..n];
        } else {
          assert ([s[..n]] + rest)[1..] == rest;
          assert Join(rest) != [];
        }
      }
    }
  }

  // ---------------------------------------------------------------------------
  // str.rsplit(sep, 1)

  /** The index of the last occurrence of `c` in `s`. */
  function LastIndexOf(s: string, c: char): (r: Option<nat>)
    ensures r.None? <==> c !in s
    ensures r.Some? ==> r.value < |s| && s[r.value] == c && c !in s[r.value + 1..]
  {
    if s == [] then None
    else if s[|s| - 1] == c then Some(|s| - 1)
    else
      var r := LastIndexOf(s[..|s| - 1], c);
      assert s == s[..|s| - 1] + [s[|s| - 1]];
      if r.Some? then
        assert s[r.value + 1..] == s[..|s| - 1][r.value + 1..] + [s[|s| - 1]];
        r
      else r
  }

  /**
   * `s.rsplit(sep, 1)` unpacked into two names: the text before and after the last
   * `sep`; `None` when the unpacking would raise because `sep` does not occur.
   */
  function RSplitOnce(s: string, sep: char): (r: Option<(string, string)>)
    ensures r.None? <==> sep !in s
    ensures r.Some? ==> s == r.value.0 + [sep] + r.value.1 && sep !in r.value.1
  {
    match LastIndexOf(s, sep)
    case None => None
    case Some(k) =>
      assert s == s[..k] + [sep] + s[k + 1..];
      Some((s[..k], s[k + 1..]))
  }

  lemma {:induction false} LastIndexOfAfter(head: string, sep: char, tail: string)
    requires sep !in tail
    ensures LastIndexOf(head + [sep] + tail, sep) == Some(|head|)
    decreases |tail|
  {
    var s := head + [sep] + tail;
    if tail != [] {
      var shorter := tail[..|tail| - 1];
      assert s[..|s| - 1] == head + [sep] + shorter;
      assert s[|s| - 1] == tail[|tail| - 1] != sep;
      assert sep !in shorter by {
        assert forall x :: x in shorter ==> x in tail;
      }
      LastIndexOfAfter(head, sep, shorter);
    }
  }

  /** Splitting at the last separator finds the one between a head and a separator-free tail. */
  lemma RSplitOnceJoin(head: string, sep: char, tail: string)
    requires sep !in tail
    ensures RSplitOnce(head + [sep] + tail, sep) == Some((head, tail))
  {
    var s := head + [sep] + tail;
    LastIndexOfAfter(head, sep, tail);
    assert s[..|head|] == head;
    assert s[|head| + 1..] == tail;
  }
}
