/**
 * The string operations the page script relies on: `String.prototype.includes`
 * (which agrees with the CSS `[attr*=value]` test for non-empty needles, the
 * only ones the script uses), `split(',')`,
 * the decimal rendering of a number inside a template literal, and the gallery
 * counter text `${i} / ${n}`.
 */
module JsText {
  import opened Wrappers

  /** `s.includes(t)`: `t` occurs in `s` as a contiguous piece. */
  predicate Contains(s: string, t: string)
    ensures t == [] ==> Contains(s, t)
    ensures Contains(s, t) ==> |t| <= |s|
    decreases |s|
  {
    t <= s || (s != [] && Contains(s[1..], t))
  }

  /** `t` is the piece of `s` that starts at position `i`. */
  predicate OccursAt(s: string, t: string, i: nat)
  {
    i + |t| <= |s| && s[i..i + |t|] == t
  }

  lemma {:induction false} ContainsAt(s: string, t: string, i: nat)
    requires OccursAt(s, t, i)
    ensures Contains(s, t)
    decreases i
  {
    if i > 0 {
      assert s[1..][i - 1..i - 1 + |t|] == s[i..i + |t|];
      ContainsAt(s[1..], t, i - 1);
    }
  }

  /** `includes` holds exactly when the needle occurs at some position. */
  lemma {:induction false} ContainsIffOccurs(s: string, t: string)
    ensures Contains(s, t) <==> exists i: nat :: OccursAt(s, t, i)
    decreases |s|
  {
    if exists i: nat :: OccursAt(s, t, i) {
      var i: nat :| OccursAt(s, t, i);
      ContainsAt(s, t, i);
    }
    if Contains(s, t) {
      if t <= s {
        assert OccursAt(s, t, 0);
      } else {
        ContainsIffOccurs(s[1..], t);
        var i: nat :| OccursAt(s[1..], t, i);
        assert s[i + 1..i + 1 + |t|] == s[1..][i..i + |t|];
        assert OccursAt(s, t, i + 1);
      }
    }
  }

  // ---------------------------------------------------------------------
  // split and join on one separator character

  /**
   * `s.split(sep)` for a one-character separator: the pieces between
   * separators, in order, with empty pieces kept; never an empty list.
   */
  function Split(s: string, sep: char): (parts: seq<string>)
    ensures |parts| >= 1
    ensures forall k :: 0 <= k < |parts| ==> sep !in parts[k]
    decreases |s|
  {
    if s == [] then [[]]
    else
      var rest := Split(s[1..], sep);
      if s[0] == sep then [[]] + rest
      else [[s[0]] + rest[0]] + rest[1..]
  }

  /** `parts.join(sep)`. */
  function Join(parts: seq<string>, sep: char): string
    requires |parts| >= 1
    decreases |parts|
  {
    if |parts| == 1 then parts[0] else parts[0] + [sep] + Join(parts[1..], sep)
  }

  /** Splitting loses nothing: joining the pieces gives back the attribute text. */
  lemma {:induction false} JoinSplit(s: string, sep: char)
    ensures Join(Split(s, sep), sep) == s
    decreases |s|
  {
    if s != [] {
      var rest := Split(s[1..], sep);
      JoinSplit(s[1..], sep);
      if s[0] == sep {
        assert ([[]] + rest)[1..] == rest;
      } else {
        var parts := [[s[0]] + rest[0]] + rest[1..];
        if |rest| == 1 {
          assert parts == [[s[0]] + rest[0]];
        } else {
          assert parts[1..] == rest[1..];
          assert Join(rest, sep) == rest[0] + [sep] + Join(rest[1..], sep);
        }
      }
    }
  }

  /** The number of pieces is one more than the number of separators. */
  lemma {:induction false} SplitCount(s: string, sep: char)
    ensures |Split(s, sep)| == multiset(s)[sep] + 1
    decreases |s|
  {
    if s != [] {
      SplitCount(s[1..], sep);
      assert s == [s[0]] + s[1..];
    }
  }

  // ---------------------------------------------------------------------
  // decimal text of a number

  predicate IsDigit(c: char) { '0' <= c <= '9' }

  predicate AllDigits(s: string) { forall k :: 0 <= k < |s| ==> IsDigit(s[k]) }

  function DigitChar(d: nat): (c: char)
    requires d < 10
    ensures IsDigit(c) && c as int - '0' as int == d
  {
    ('0' as int + d) as char
  }

  /** `${n}` for a non-negative integer: its decimal digits, no leading zero. */
  function NatToString(n: nat): (s: string)
    ensures |s| >= 1 && AllDigits(s)
    ensures |s| > 1 ==> s[0] != '0'
    decreases n
  {
    if n < 10 then [DigitChar(n)] else NatToString(n / 10) + [DigitChar(n % 10)]
  }

  /** The value of a string of decimal digits. */
  function ParseNat(s: string): nat
    requires AllDigits(s)
    decreases |s|
  {
    if s == [] then 0 else ParseNat(s[..|s| - 1]) * 10 + (s[|s| - 1] as int - '0' as int)
  }

  lemma {:induction false} ParseNatToString(n: nat)
    ensures ParseNat(NatToString(n)) == n
    decreases n
  {
    if n >= 10 {
      var s := NatToString(n);
      assert s[..|s| - 1] == NatToString(n / 10);
      ParseNatToString(n / 10);
    }
  }

  /** Different numbers never print the same. */
  lemma NatToStringInjective(a: nat, b: nat)
    requires a != b
    ensures NatToString(a) != NatToString(b)
  {
    ParseNatToString(a);
    ParseNatToString(b);
  }

  // ---------------------------------------------------------------------
  // canonical digit strings

  /** The decimal text of a number as printed: digits only, and no leading zero unless it is "0". */
  predicate Canonical(d: string)
  {
    |d| >= 1 && AllDigits(d) && (|d| > 1 ==> d[0] != '0')
  }

  lemma {:induction false} ParseNatPositive(d: string)
    requires AllDigits(d) && d != [] && d[0] != '0'
    ensures ParseNat(d) >= 1
    decreases |d|
  {
    if |d| > 1 {
      ParseNatPositive(d[..|d| - 1]);
    }
  }

  /** Printing the value of a canonical digit string gives back the string. */
  lemma {:induction false} NatToStringParseNat(d: string)
    requires Canonical(d)
    ensures NatToString(ParseNat(d)) == d
    decreases |d|
  {
    var v := d[|d| - 1] as int - '0' as int;
    if |d| == 1 {
      assert ParseNat(d) == v;
      assert [DigitChar(v)] == d;
    } else {
      var p := d[..|d| - 1];
      assert p[0] == d[0];
      ParseNatPositive(p);
      NatToStringParseNat(p);
      var n := ParseNat(d);
      assert n == ParseNat(p) * 10 + v;
      assert n / 10 == ParseNat(p) && n % 10 == v;
      assert d == p + [DigitChar(v)];
    }
  }

  // ---------------------------------------------------------------------
  // the gallery counter text

  /** `${position} / ${total}`: reads back as exactly the pair (position, total). */
  function CounterText(position: nat, total: nat): (s: string)
    ensures ParseCounter(s) == Some((position, total))
  {
    var p, t := NatToString(position), NatToString(total);
    var s := p + " / " + t;
    assert s == p + (" / " + t);
    LeadingDigitsOfConcat(p, " / " + t);
    assert s[..|p|] == p;
    assert s[|p|..|p| + 3] == " / ";
    assert s[|p| + 3..] == t;
    ParseNatToString(position);
    ParseNatToString(total);
    s
  }

  /** Length of the run of digits at the front of `s`. */
  function LeadingDigits(s: string): (k: nat)
    ensures k <= |s| && AllDigits(s[..k])
    ensures k < |s| ==> !IsDigit(s[k])
    decreases |s|
  {
    if s == [] || !IsDigit(s[0]) then 0
    else
      var k := 1 + LeadingDigits(s[1..]);
      assert s[..k] == [s[0]] + s[1..][..k - 1];
      k
  }

  /** Reads a counter text back as (position, total); both numbers must be written as printed. */
  function ParseCounter(s: string): Option<(nat, nat)>
  {
    var k := LeadingDigits(s);
    if 0 < k && k + 3 < |s| && s[k..k + 3] == " / " && Canonical(s[..k]) && Canonical(s[k + 3..])
    then Some((ParseNat(s[..k]), ParseNat(s[k + 3..])))
    else None
  }

  lemma {:induction false} LeadingDigitsOfConcat(d: string, rest: string)
    requires AllDigits(d) && rest != [] && !IsDigit(rest[0])
    ensures LeadingDigits(d + rest) == |d|
    decreases |d|
  {
    if d != [] {
      assert (d + rest)[1..] == d[1..] + rest;
      LeadingDigitsOfConcat(d[1..], rest);
    }
  }

  /** The counter text is the only text that reads back as (position, total). */
  lemma ParseCounterExact(s: string, position: nat, total: nat)
    ensures ParseCounter(s) == Some((position, total)) <==> s == CounterText(position, total)
  {
    if ParseCounter(s) == Some((position, total)) {
      var k := LeadingDigits(s);
      var a, b := s[..k], s[k + 3..];
      NatToStringParseNat(a);
      NatToStringParseNat(b);
      assert s == a + s[k..k + 3] + b;
    }
  }
}
