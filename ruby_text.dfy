/**
 * The few Ruby string operations the sync job relies on, written out so that
 * their edge cases are part of the model: ASCII case mapping (Ruby 1.8 strings
 * are byte strings), `strip`, ActiveSupport's `blank?`, `end_with?`, `gsub` with a
 * literal pattern, `Integer#to_s`, `String#to_i`, and the two `split` idioms
 * the code uses (`split("=")[1]` and `split("\\").last`).
 */
module RubyText {
  import opened Wrappers

  // ---------------------------------------------------------------------------
  // Characters
  // ---------------------------------------------------------------------------

  /** The characters Ruby's `strip` and `to_i` treat as white space. */
  predicate IsSpace(c: char)
  {
    c == ' ' || c == '\t' || c == '\n' || c == '\U{B}' || c == '\U{C}' || c == '\r'
  }

  predicate IsDigit(c: char)
  {
    '0' <= c <= '9'
  }

  function DigitValue(c: char): nat
    requires IsDigit(c)
  {
    (c - '0') as nat
  }

  function DigitChar(d: nat): (c: char)
    requires d < 10
    ensures IsDigit(c) && DigitValue(c) == d
  {
    ('0' as int + d) as char
  }

  function LowerChar(c: char): char
  {
    if 'A' <= c <= 'Z' then (c as int + 32) as char else c
  }

  function UpperChar(c: char): char
  {
    if 'a' <= c <= 'z' then (c as int - 32) as char else c
  }

  // ---------------------------------------------------------------------------
  // Case mapping, strip, blank?
  // ---------------------------------------------------------------------------

  /** `String#downcase` (ASCII letters only, as in Ruby 1.8). */
  function Downcase(s: string): (r: string)
    ensures |r| == |s|
    ensures forall i :: 0 <= i < |s| ==> r[i] == LowerChar(s[i])
  {
    seq(|s|, i requires 0 <= i < |s| => LowerChar(s[i]))
  }

  /** `String#upcase` (ASCII letters only). */
  function Upcase(s: string): (r: string)
    ensures |r| == |s|
    ensures forall i :: 0 <= i < |s| ==> r[i] == UpperChar(s[i])
  {
    seq(|s|, i requires 0 <= i < |s| => UpperChar(s[i]))
  }

  /** `String#capitalize`: first character upper case, the rest lower case. */
  function Capitalize(s: string): (r: string)
    ensures |r| == |s|
  {
    if s == [] then [] else [UpperChar(s[0])] + Downcase(s[1..])
  }

  function LStrip(s: string): (r: string)
    ensures r == [] || !IsSpace(r[0])
    ensures |r| <= |s| && r == s[|s| - |r|..]
  {
    if s != [] && IsSpace(s[0]) then LStrip(s[1..]) else s
  }

  /** `rstrip` removes trailing white space and NUL characters. */
  function RStrip(s: string): (r: string)
    ensures r == [] || !(IsSpace(r[|r| - 1]) || r[|r| - 1] == '\0')
    ensures |r| <= |s| && r == s[..|r|]
  {
    if s != [] && (IsSpace(s[|s| - 1]) || s[|s| - 1] == '\0') then RStrip(s[..|s| - 1]) else s
  }

  /** `String#strip`. */
  function Strip(s: string): string
  {
    RStrip(LStrip(s))
  }

  /** ActiveSupport's `String#blank?`: empty or white space only. */
  predicate Blank(s: string)
  {
    forall i :: 0 <= i < |s| ==> IsSpace(s[i])
  }

  /** `String#end_with?`. */
  predicate EndsWith(s: string, suffix: string)
  {
    |suffix| <= |s| && s[|s| - |suffix|..] == suffix
  }

  // ---------------------------------------------------------------------------
  // gsub with a literal pattern
  // ---------------------------------------------------------------------------

  predicate OccursAt(s: string, pat: string, i: int)
  {
    0 <= i && i + |pat| <= |s| && s[i..i + |pat|] == pat
  }

  ghost predicate Occurs(s: string, pat: string)
  {
    exists i :: OccursAt(s, pat, i)
  }

  /** `String#gsub(pat, rep)` for a literal, non-empty `pat`: scans left to right and
      replaces every non-overlapping occurrence. */
  function Gsub(s: string, pat: string, rep: string): string
    requires pat != []
    decreases |s|
  {
    if |s| < |pat| then s
    else if s[..|pat|] == pat then rep + Gsub(s[|pat|..], pat, rep)
    else [s[0]] + Gsub(s[1..], pat, rep)
  }

  /** A string with no occurrence of the pattern is left as it is. */
  lemma {:induction false} GsubWithoutMatch(s: string, pat: string, rep: string)
    requires pat != [] && !Occurs(s, pat)
    ensures Gsub(s, pat, rep) == s
    decreases |s|
  {
    if |s| >= |pat| {
      assert !OccursAt(s, pat, 0);
      assert !Occurs(s[1..], pat) by {
        forall i ensures !OccursAt(s[1..], pat, i) {
          if 0 <= i && i + |pat| <= |s| - 1 {
            assert s[1..][i..i + |pat|] == s[i + 1..i + 1 + |pat|];
            assert !OccursAt(s, pat, i + 1);
          }
        }
      }
      GsubWithoutMatch(s[1..], pat, rep);
    }
  }

  /** A pattern that occurs in `stem + pat` only at its end is replaced there alone. */
  lemma {:induction false} GsubAtEnd(stem: string, pat: string, rep: string)
    requires pat != []
    requires forall i :: 0 <= i < |stem| ==> !OccursAt(stem + pat, pat, i)
    ensures Gsub(stem + pat, pat, rep) == stem + rep
    decreases |stem|
  {
    var s := stem + pat;
    if stem == [] {
      assert s == pat && s[|pat|..] == [];
    } else {
      assert !OccursAt(s, pat, 0);
      assert s[1..] == stem[1..] + pat;
      forall i | 0 <= i < |stem[1..]| ensures !OccursAt(stem[1..] + pat, pat, i) {
        assert !OccursAt(s, pat, i + 1);
        assert s[i + 1..i + 1 + |pat|] == (stem[1..] + pat)[i..i + |pat|];
      }
      GsubAtEnd(stem[1..], pat, rep);
      assert [s[0]] + (stem[1..] + rep) == stem + rep;
    }
  }

  // ---------------------------------------------------------------------------
  // Integer#to_s and String#to_i
  // ---------------------------------------------------------------------------

  predicate AllDigits(s: string)
  {
    forall i :: 0 <= i < |s| ==> IsDigit(s[i])
  }

  /** Decimal digits of a natural number, without leading zeros. */
  function NatToS(n: nat): (r: string)
    ensures AllDigits(r) && r != []
    ensures |r| > 1 ==> r[0] != '0'
  {
    if n < 10 then [DigitChar(n)] else NatToS(n / 10) + [DigitChar(n % 10)]
  }

  /** `Integer#to_s`. */
  function IntToS(i: int): (r: string)
    ensures r != [] && (r[0] == '-' || IsDigit(r[0]))
  {
    if i < 0 then "-" + NatToS(-i) else NatToS(i)
  }

  /** The value of a string of decimal digits. */
  function DigitsValue(d: string): nat
    requires AllDigits(d)
  {
    if d == [] then 0 else DigitsValue(d[..|d| - 1]) * 10 + DigitValue(d[|d| - 1])
  }

  /** The longest prefix made of decimal digits. */
  function LeadingDigits(s: string): (r: string)
    ensures AllDigits(r) && |r| <= |s| && r == s[..|r|]
    ensures |r| < |s| ==> !IsDigit(s[|r|])
  {
    if s == [] || !IsDigit(s[0]) then [] else [s[0]] + LeadingDigits(s[1..])
  }

  /** `String#to_i`: skips leading white space, reads an optional sign and then as
      many decimal digits as follow; no digits give 0. (Underscores between digits,
      which Ruby also accepts, are not modelled.) */
  function ToI(s: string): int
  {
    var t := LStrip(s);
    if t != [] && t[0] == '-' then -(DigitsValue(LeadingDigits(t[1..])) as int)
    else if t != [] && t[0] == '+' then DigitsValue(LeadingDigits(t[1..]))
    else DigitsValue(LeadingDigits(t))
  }

  lemma {:induction false} LeadingDigitsOfDigits(s: string)
    requires AllDigits(s)
    ensures LeadingDigits(s) == s
  {
    if s != [] {
      LeadingDigitsOfDigits(s[1..]);
    }
  }

  lemma {:induction false} DigitsValueOfNatToS(n: nat)
    ensures DigitsValue(NatToS(n)) == n
  {
    if n >= 10 {
      var d := NatToS(n);
      assert d[..|d| - 1] == NatToS(n / 10);
      DigitsValueOfNatToS(n / 10);
    }
  }

  /** `to_i` reads back what `to_s` wrote. */
  lemma ToIOfIntToS(i: int)
    ensures ToI(IntToS(i)) == i
  {
    var s := IntToS(i);
    assert !IsSpace(s[0]);
    assert LStrip(s) == s;
    if i < 0 {
      var d := NatToS(-i);
      assert s == "-" + d && s[1..] == d;
      LeadingDigitsOfDigits(d);
      DigitsValueOfNatToS(-i);
    } else {
      assert s == NatToS(i) && IsDigit(s[0]);
      LeadingDigitsOfDigits(s);
      DigitsValueOfNatToS(i);
    }
  }

  // ---------------------------------------------------------------------------
  // The two split idioms
  // ---------------------------------------------------------------------------

  /** The text before the first `c`, or all of `s`. */
  function UpTo(s: string, c: char): (r: string)
    ensures c !in r && |r| <= |s| && r == s[..|r|]
    ensures |r| < |s| ==> s[|r|] == c
  {
    if s == [] || s[0] == c then [] else [s[0]] + UpTo(s[1..], c)
  }

  /** `s.split(c)[1]`, the field between the first and the second `c`. Ruby answers
      nil when that field is missing (no `c`, or only empty fields after it); since
      the code only applies `to_i` to it, and `nil.to_i == "".to_i == 0`, the missing
      field is written "". */
  function SplitSecond(s: string, c: char): string
  {
    if c in s then
      var head := UpTo(s, c);
      UpTo(s[|head| + 1..], c)
    else ""
  }

  /** A string without `c` is read up to its end. */
  lemma {:induction false} UpToWithout(s: string, c: char)
    requires c !in s
    ensures UpTo(s, c) == s
  {
    if s != [] {
      assert c !in s[1..];
      UpToWithout(s[1..], c);
    }
  }

  /** The field after the first `c` of `a + [c] + b` is `b`, when neither holds a `c`. */
  lemma SplitSecondOf(a: string, b: string, c: char)
    requires c !in a && c !in b
    ensures SplitSecond(a + [c] + b, c) == b
  {
    var s := a + [c] + b;
    assert c in s by {
      assert s[|a|] == c;
    }
    var head := UpTo(s, c);
    assert |head| == |a|;
    assert s[|head| + 1..] == b;
    UpToWithout(b, c);
  }

  /** Integer#to_s writes digits and perhaps a minus sign, nothing else. */
  lemma IntToSChars(i: int, c: char)
    requires c != '-' && !IsDigit(c)
    ensures c !in IntToS(i)
  {
    if i < 0 {
      var d := NatToS(-i);
      assert IntToS(i) == "-" + d;
      assert forall k :: 0 <= k < |d| ==> d[k] != c;
    } else {
      var d := NatToS(i);
      assert forall k :: 0 <= k < |d| ==> d[k] != c;
    }
  }

  /** Drops the trailing run of `c` (the empty fields `split` discards). */
  function TrimTrailing(s: string, c: char): string
  {
    if s != [] && s[|s| - 1] == c then TrimTrailing(s[..|s| - 1], c) else s
  }

  /** What `TrimTrailing` keeps is a prefix that does not end in `c`, and what it
      drops is made of `c` alone. */
  lemma {:induction false} TrimTrailingShape(s: string, c: char)
    ensures var r := TrimTrailing(s, c);
      && |r| <= |s| && r == s[..|r|] && (r == [] || r[|r| - 1] != c)
      && forall i :: |r| <= i < |s| ==> s[i] == c
  {
    if s != [] && s[|s| - 1] == c {
      TrimTrailingShape(s[..|s| - 1], c);
    }
  }

  /** The text after the last `c`, or all of `s`. */
  function AfterLast(s: string, c: char): (r: string)
    ensures c !in r && |r| <= |s| && r == s[|s| - |r|..]
    ensures |r| < |s| ==> s[|s| - |r| - 1] == c
  {
    if s == [] then []
    else if s[|s| - 1] == c then []
    else AfterLast(s[..|s| - 1], c) + [s[|s| - 1]]
  }

  /** Whether `s` holds a character other than `c`: dropping its trailing `c`s
      leaves something. */
  predicate HasOtherThan(s: string, c: char)
  {
    TrimTrailing(s, c) != []
  }

  /** `s` is not made of `c` alone exactly when some character of it is not `c`. */
  lemma HasOtherThanTrim(s: string, c: char)
    ensures HasOtherThan(s, c) <==> exists i :: 0 <= i < |s| && s[i] != c
  {
    TrimTrailingShape(s, c);
    var r := TrimTrailing(s, c);
    if r != [] {
      assert s[|r| - 1] == r[|r| - 1];
    }
  }

  /** `s.split(c).last`, for a string that is not made of `c` alone (for one that is,
      `split` gives [] and `last` is nil); `s` holds a character other than `c` exactly
      when dropping its trailing `c`s leaves something. */
  function SplitLast(s: string, c: char): (r: string)
    requires HasOtherThan(s, c)
    ensures r != [] && c !in r
  {
    TrimTrailingShape(s, c);
    AfterLast(TrimTrailing(s, c), c)
  }

  /** The last segment of `pre + [c] + name` is `name`, when `name` holds no `c`. */
  lemma {:induction false} AfterLastOf(pre: string, c: char, name: string)
    requires c !in name
    ensures AfterLast(pre + [c] + name, c) == name
    decreases |name|
  {
    var s := pre + [c] + name;
    if name == [] {
      assert s[|s| - 1] == c;
    } else {
      var front := name[..|name| - 1];
      assert s[..|s| - 1] == pre + [c] + front;
      assert s[|s| - 1] == name[|name| - 1];
      AfterLastOf(pre, c, front);
      assert front + [name[|name| - 1]] == name;
    }
  }

  /** `(pre + c + name).split(c).last` is `name`, for a non-empty `name` without `c`. */
  lemma SplitLastOf(pre: string, c: char, name: string)
    requires name != [] && c !in name
    ensures HasOtherThan(pre + [c] + name, c)
    ensures SplitLast(pre + [c] + name, c) == name
  {
    var s := pre + [c] + name;
    assert s[|s| - 1] == name[|name| - 1];
    assert name[|name| - 1] in name;
    AfterLastOf(pre, c, name);
  }
}
