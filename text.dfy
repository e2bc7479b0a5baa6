/**
 * The string operations the core uses: decimal formatting of integers (string
 * interpolation of an int), string.Join, and string.Split(' ',
 * StringSplitOptions.RemoveEmptyEntries).
 */
module Text {

  predicate IsDigit(c: char) {
    '0' <= c <= '9'
  }

  function DigitChar(d: nat): (c: char)
    requires d < 10
    ensures IsDigit(c) && c as int - '0' as int == d
  {
    ('0' as int + d) as char
  }

  /** Decimal notation of a natural number, without leading zeros. */
  function NatToString(n: nat): (s: string)
    ensures |s| >= 1
    ensures forall k | 0 <= k < |s| :: IsDigit(s[k])
    ensures |s| > 1 ==> s[0] != '0'
    decreases n
  {
    if n < 10 then [DigitChar(n)] else NatToString(n / 10) + [DigitChar(n % 10)]
  }

  /** Reading decimal digits back: the reference inverse of NatToString. */
  function ParseNat(s: string): nat
    requires forall k | 0 <= k < |s| :: IsDigit(s[k])
    decreases |s|
  {
    if s == [] then 0
    else ParseNat(s[..|s| - 1]) * 10 + DigitValue(s[|s| - 1])
  }

  function DigitValue(c: char): nat
    requires IsDigit(c)
  {
    c as int - '0' as int
  }

  lemma {:induction false} ParseNatToString(n: nat)
    ensures ParseNat(NatToString(n)) == n
    decreases n
  {
    if n >= 10 {
      var s := NatToString(n);
      assert s[..|s| - 1] == NatToString(n / 10);
      ParseNatToString(n / 10);
    }
  }

  lemma NatToStringInjective(m: nat, n: nat)
    ensures NatToString(m) == NatToString(n) ==> m == n
  {
    ParseNatToString(m);
    ParseNatToString(n);
  }

  /** Decimal notation of an integer, with a leading '-' for negative values. */
  function IntToString(i: int): (s: string)
    ensures i >= 0 ==> s == NatToString(i)
    ensures i < 0 ==> s == "-" + NatToString(-i)
  {
    if i < 0 then "-" + NatToString(-i) else NatToString(i)
  }

  lemma IntToStringInjective(i: int, j: int)
    ensures IntToString(i) == IntToString(j) ==> i == j
  {
    if IntToString(i) == IntToString(j) {
      var s := IntToString(i);
      if i < 0 && j < 0 {
        assert s[1..] == NatToString(-i) == NatToString(-j);
        NatToStringInjective(-i, -j);
      } else if i >= 0 && j >= 0 {
        NatToStringInjective(i, j);
      }
    }
  }

  /** string.Join(separator, parts): the parts in order with one separator between neighbours. */
  function Join(separator: string, parts: seq<string>): string {
    if |parts| == 0 then []
    else if |parts| == 1 then parts[0]
    else parts[0] + separator + Join(separator, parts[1..])
  }

  /** A token of the command line: non-empty and free of spaces. */
  predicate IsToken(t: string) {
    t != [] && ' ' !in t
  }

  /** Every part is a token. */
  predicate AllTokens(ts: seq<string>)
    decreases |ts|
  {
    ts == [] || (IsToken(ts[0]) && AllTokens(ts[1..]))
  }

  predicate IsBlank(s: string) {
    forall k | 0 <= k < |s| :: s[k] == ' '
  }

  /** The longest prefix of s that holds no space. */
  function LeadingWord(s: string): (w: string)
    ensures |w| <= |s|
    decreases |s|
  {
    if s == [] || s[0] == ' ' then [] else [s[0]] + LeadingWord(s[1..])
  }

  /** The leading word is a space-free prefix that stops at a space or at the end. */
  lemma {:induction false} LeadingWordShape(s: string)
    ensures |LeadingWord(s)| <= |s| && LeadingWord(s) == s[..|LeadingWord(s)|]
    ensures ' ' !in LeadingWord(s)
    ensures |LeadingWord(s)| < |s| ==> s[|LeadingWord(s)|] == ' '
    decreases |s|
  {
    if s != [] && s[0] != ' ' {
      LeadingWordShape(s[1..]);
      var w := LeadingWord(s[1..]);
      assert LeadingWord(s) == [s[0]] + w;
      assert s[1..][..|w|] == s[1..|w| + 1];
      assert [s[0]] + s[1..|w| + 1] == s[..|w| + 1];
      if |w| + 1 < |s| { assert s[|w| + 1] == s[1..][|w|]; }
    }
  }

  /**
   * s.Split(' ', StringSplitOptions.RemoveEmptyEntries): the maximal runs of
   * non-space characters, in order.
   */
  function Tokens(s: string): seq<string>
    decreases |s|
  {
    if s == [] then []
    else if s[0] == ' ' then Tokens(s[1..])
    else
      var w := LeadingWord(s);
      [w] + Tokens(s[|w|..])
  }

  /** Every piece the tokenizer yields is a non-empty run without spaces. */
  lemma {:induction false} TokensAreTokens(s: string)
    ensures forall k | 0 <= k < |Tokens(s)| :: IsToken(Tokens(s)[k])
    decreases |s|
  {
    if s != [] {
      if s[0] == ' ' {
        TokensAreTokens(s[1..]);
      } else {
        LeadingWordShape(s);
        var w := LeadingWord(s);
        assert w != [] by { assert w == [s[0]] + LeadingWord(s[1..]); }
        TokensAreTokens(s[|w|..]);
        var ts := Tokens(s);
        assert ts == [w] + Tokens(s[|w|..]);
        forall k | 0 <= k < |ts| ensures IsToken(ts[k]) {
          if k > 0 { assert ts[k] == Tokens(s[|w|..])[k - 1]; }
        }
      }
    }
  }

  /** A line yields no tokens exactly when it consists of spaces only. */
  lemma {:induction false} TokensEmptyIffBlank(s: string)
    ensures Tokens(s) == [] <==> IsBlank(s)
    decreases |s|
  {
    if s != [] {
      TokensEmptyIffBlank(s[1..]);
      if s[0] == ' ' {
        assert IsBlank(s) <==> IsBlank(s[1..]) by {
          if IsBlank(s[1..]) {
            forall k | 0 <= k < |s| ensures s[k] == ' ' {
              if k > 0 { assert s[k] == s[1..][k - 1]; }
            }
          }
        }
      } else {
        assert !IsBlank(s);
      }
    }
  }

  lemma {:induction false} LeadingWordOfToken(t: string, rest: string)
    requires ' ' !in t
    requires rest == [] || rest[0] == ' '
    ensures LeadingWord(t + rest) == t
    decreases |t|
  {
    if t != [] {
      assert (t + rest)[1..] == t[1..] + rest;
      LeadingWordOfToken(t[1..], rest);
      assert [t[0]] + t[1..] == t;
    } else {
      assert t + rest == rest;
    }
  }

  /** Splitting undoes joining with one space: the tokenizer reads back a joined command line. */
  lemma {:induction false} TokensOfJoin(ts: seq<string>)
    requires AllTokens(ts)
    ensures Tokens(Join(" ", ts)) == ts
    decreases |ts|
  {
    if |ts| == 1 {
      LeadingWordOfToken(ts[0], []);
      assert ts[0] + [] == ts[0];
      assert Join(" ", ts)[|ts[0]|..] == [];
    } else if |ts| > 1 {
      var rest := Join(" ", ts[1..]);
      var s := ts[0] + " " + rest;
      assert s == ts[0] + (" " + rest);
      LeadingWordOfToken(ts[0], " " + rest);
      assert s[|ts[0]|..] == " " + rest;
      assert (" " + rest)[1..] == rest;
      TokensOfJoin(ts[1..]);
      assert [ts[0]] + ts[1..] == ts;
    }
  }
}
