/**
 * The Python `str` operations the tools use, written on `seq<char>`: substring
 * test, `join`, `split` on one character, `replace` of one character, `strip`
 * and `str()` of a non-negative integer.
 */
module PyStrings {

  /** `s.startswith(prefix)` */
  predicate StartsWith(s: string, prefix: string) {
    |prefix| <= |s| && s[..|prefix|] == prefix
  }

  /** A string that starts with `p + mid` starts with every prefix of `p`. */
  lemma StartsWithConcat(p: string, mid: string, rest: string, prefix: string)
    requires StartsWith(p, prefix)
    ensures StartsWith(p + mid + rest, prefix)
  {
    assert (p + mid + rest)[..|prefix|] == p[..|prefix|];
  }

  /** Concatenation regroups freely. */
  lemma AppendAssociative(a: string, b: string, c: string)
    ensures a + (b + c) == a + b + c
  {
  }

  /** What follows `a` in `a + b` is `b`. */
  lemma SuffixOfConcat(a: string, b: string)
    ensures (a + b)[|a|..] == b
  {
  }

  /** `sub` occurs in `s` at position `i`. */
  predicate OccursAt(s: string, sub: string, i: nat) {
    i + |sub| <= |s| && s[i..i + |sub|] == sub
  }

  /** Python's `sub in s`, scanning `s` from the left. */
  predicate Contains(s: string, sub: string)
    decreases |s|
  {
    StartsWith(s, sub) || (|s| > 0 && Contains(s[1..], sub))
  }

  /** An occurrence at position `i` is found by the scan. */
  lemma {:induction false} OccursThenContains(s: string, sub: string, i: nat)
    requires OccursAt(s, sub, i)
    ensures Contains(s, sub)
    decreases i
  {
    if i == 0 {
      assert s[..|sub|] == s[0..|sub|];
    } else {
      assert s[1..][i - 1..i - 1 + |sub|] == s[i..i + |sub|];
      OccursThenContains(s[1..], sub, i - 1);
    }
  }

  /** When the scan succeeds it has found an occurrence, at position `i`. */
  lemma {:induction false} ContainsWitness(s: string, sub: string) returns (i: nat)
    requires Contains(s, sub)
    ensures OccursAt(s, sub, i)
    decreases |s|
  {
    if StartsWith(s, sub) {
      i := 0;
    } else {
      var j := ContainsWitness(s[1..], sub);
      assert s[j + 1..j + 1 + |sub|] == s[1..][j..j + |sub|];
      i := j + 1;
    }
  }

  /** The scan finds `sub` exactly when `sub` occurs somewhere in `s`. */
  lemma ContainsIffOccurs(s: string, sub: string)
    ensures Contains(s, sub) <==> exists i: nat :: OccursAt(s, sub, i)
  {
    if Contains(s, sub) {
      var i := ContainsWitness(s, sub);
    }
    forall i: nat | OccursAt(s, sub, i) ensures Contains(s, sub) {
      OccursThenContains(s, sub, i);
    }
  }

  /** `sep.join(parts)` */
  function Join(parts: seq<string>, sep: string): string
  {
    if |parts| == 0 then ""
    else if |parts| == 1 then parts[0]
    else parts[0] + sep + Join(parts[1..], sep)
  }

  /** Number of occurrences of character `c` in `s`. */
  function CountChar(s: string, c: char): nat
  {
    if |s| == 0 then 0 else (if s[0] == c then 1 else 0) + CountChar(s[1..], c)
  }

  /** `s.split(c)` for a one-character separator `c`. */
  function Split(s: string, c: char): (parts: seq<string>)
    ensures |parts| == CountChar(s, c) + 1
  {
    if |s| == 0 then [""]
    else
      var rest := Split(s[1..], c);
      if s[0] == c then [""] + rest else [[s[0]] + rest[0]] + rest[1..]
  }

  /** No piece of a split contains the separator. */
  lemma {:induction false} SplitPiecesLackSeparator(s: string, c: char)
    ensures forall k :: 0 <= k < |Split(s, c)| ==> c !in Split(s, c)[k]
  {
    if |s| > 0 {
      SplitPiecesLackSeparator(s[1..], c);
    }
  }

  /** Joining the pieces of a split with the separator gives back the string. */
  lemma {:induction false} JoinSplit(s: string, c: char)
    ensures Join(Split(s, c), [c]) == s
  {
    if |s| > 0 {
      JoinSplit(s[1..], c);
      var rest := Split(s[1..], c);
      if s[0] == c {
        assert Split(s, c) == [""] + rest;
        assert ([""] + rest)[1..] == rest;
      } else {
        var parts := [[s[0]] + rest[0]] + rest[1..];
        assert Split(s, c) == parts;
        if |rest| == 1 {
          assert Join(rest, [c]) == rest[0];
        } else {
          assert Join(rest, [c]) == rest[0] + [c] + Join(rest[1..], [c]);
          assert parts[1..] == rest[1..];
        }
      }
    }
  }

  /** Splitting one piece that lacks the separator gives that piece alone. */
  lemma {:induction false} SplitWithoutSeparator(s: string, c: char)
    requires c !in s
    ensures Split(s, c) == [s]
  {
    if |s| > 0 {
      assert c !in s[1..];
      SplitWithoutSeparator(s[1..], c);
      assert [s[0]] + s[1..] == s;
    }
  }

  /** A split stops at the first separator and starts over after it. */
  lemma {:induction false} SplitAtSeparator(a: string, c: char, b: string)
    requires c !in a
    ensures Split(a + [c] + b, c) == [a] + Split(b, c)
  {
    if |a| == 0 {
      assert a + [c] + b == [c] + b;
      assert ([c] + b)[1..] == b;
    } else {
      SplitAtSeparator(a[1..], c, b);
      assert (a + [c] + b)[1..] == a[1..] + [c] + b;
      assert [a[0]] + a[1..] == a;
    }
  }

  /**
   * Splitting a join gives back the parts, when no part contains the
   * separator: a line-oriented text can be read back line by line.
   */
  lemma {:induction false} SplitJoin(parts: seq<string>, c: char)
    requires |parts| >= 1
    requires forall k :: 0 <= k < |parts| ==> c !in parts[k]
    ensures Split(Join(parts, [c]), c) == parts
  {
    if |parts| == 1 {
      SplitWithoutSeparator(parts[0], c);
    } else {
      SplitJoin(parts[1..], c);
      SplitAtSeparator(parts[0], c, Join(parts[1..], [c]));
      assert [parts[0]] + parts[1..] == parts;
    }
  }

  /** `s.replace(c, repl)` for a one-character pattern `c`. */
  function Replace(s: string, c: char, repl: string): string
  {
    if |s| == 0 then "" else (if s[0] == c then repl else [s[0]]) + Replace(s[1..], c, repl)
  }

  /** Replacing `c` by `repl` is the same as splitting at `c` and joining with `repl`. */
  lemma {:induction false} ReplaceIsJoinOfSplit(s: string, c: char, repl: string)
    ensures Replace(s, c, repl) == Join(Split(s, c), repl)
  {
    if |s| > 0 {
      ReplaceIsJoinOfSplit(s[1..], c, repl);
      var rest := Split(s[1..], c);
      if s[0] == c {
        assert Split(s, c) == [""] + rest;
        assert ([""] + rest)[1..] == rest;
      } else {
        var parts := [[s[0]] + rest[0]] + rest[1..];
        assert Split(s, c) == parts;
        if |rest| > 1 {
          assert parts[1..] == rest[1..];
        }
      }
    }
  }

  /** After the replacement no `c` is left, unless `repl` brings one in. */
  lemma {:induction false} ReplaceRemoves(s: string, c: char, repl: string, d: char)
    requires d !in repl
    requires d == c || d !in s
    ensures d !in Replace(s, c, repl)
  {
    if |s| > 0 {
      ReplaceRemoves(s[1..], c, repl, d);
    }
  }

  /** `ch.isspace()`: the characters Python's `str.strip()` removes. */
  predicate IsSpace(ch: char) {
    || ch == ' '
    || ('\t' <= ch <= '\r')
    || ('\U{1c}' <= ch <= '\U{1f}')
    || ch == '\U{85}' || ch == '\U{a0}' || ch == '\U{1680}'
    || ('\U{2000}' <= ch <= '\U{200a}')
    || ch == '\U{2028}' || ch == '\U{2029}' || ch == '\U{202f}'
    || ch == '\U{205f}' || ch == '\U{3000}'
  }

  /** Every character of `s` is whitespace. */
  predicate IsBlank(s: string) {
    forall k :: 0 <= k < |s| ==> IsSpace(s[k])
  }

  /** `s.lstrip()` */
  function StripStart(s: string): string
  {
    if |s| > 0 && IsSpace(s[0]) then StripStart(s[1..]) else s
  }

  /** `s.rstrip()` */
  function StripEnd(s: string): string
  {
    if |s| > 0 && IsSpace(s[|s| - 1]) then StripEnd(s[..|s| - 1]) else s
  }

  /** `s.strip()` */
  function Strip(s: string): string
  {
    StripEnd(StripStart(s))
  }

  lemma {:induction false} StripStartEmpty(s: string)
    ensures StripStart(s) == "" <==> IsBlank(s)
  {
    if |s| > 0 && IsSpace(s[0]) {
      StripStartEmpty(s[1..]);
      assert IsBlank(s) <==> IsBlank(s[1..]) by {
        if IsBlank(s[1..]) {
          forall k | 0 <= k < |s| ensures IsSpace(s[k]) {
            if k > 0 { assert s[k] == s[1..][k - 1]; }
          }
        }
      }
    }
  }

  lemma {:induction false} StripEndEmpty(s: string)
    ensures StripEnd(s) == "" <==> IsBlank(s)
  {
    if |s| > 0 && IsSpace(s[|s| - 1]) {
      var t := s[..|s| - 1];
      StripEndEmpty(t);
      assert IsBlank(s) <==> IsBlank(t) by {
        if IsBlank(t) {
          forall k | 0 <= k < |s| ensures IsSpace(s[k]) {
            if k < |s| - 1 { assert s[k] == t[k]; }
          }
        }
      }
    } else if |s| > 0 {
      assert !IsSpace(s[|s| - 1]);
    }
  }

  /** `lstrip` leaves a string that is empty or begins with a non-space. */
  lemma {:induction false} StripStartShape(s: string)
    ensures StripStart(s) == "" || !IsSpace(StripStart(s)[0])
  {
    if |s| > 0 && IsSpace(s[0]) {
      StripStartShape(s[1..]);
    }
  }

  /** A line is dropped by `if line.strip():` exactly when it is all whitespace. */
  lemma StripEmptyIffBlank(s: string)
    ensures Strip(s) == "" <==> IsBlank(s)
  {
    StripStartEmpty(s);
    StripStartShape(s);
    StripEndEmpty(StripStart(s));
  }

  /** The decimal digit for `d < 10`. */
  function Digit(d: nat): char
    requires d < 10
  {
    (('0' as int) + d) as char
  }

  /** `str(n)` for a non-negative integer `n`. */
  function Decimal(n: nat): string
    decreases n
  {
    if n < 10 then [Digit(n)] else Decimal(n / 10) + [Digit(n % 10)]
  }

  /** The value of a string of decimal digits. */
  function DigitsValue(s: string): nat
    requires forall k :: 0 <= k < |s| ==> '0' <= s[k] <= '9'
  {
    if |s| == 0 then 0
    else DigitsValue(s[..|s| - 1]) * 10 + ((s[|s| - 1] as int) - ('0' as int))
  }

  /** `str(n)` writes `n` in decimal digits that read back as `n`, with no leading zero. */
  lemma {:induction false} DecimalRoundTrip(n: nat)
    ensures |Decimal(n)| >= 1
    ensures forall k :: 0 <= k < |Decimal(n)| ==> '0' <= Decimal(n)[k] <= '9'
    ensures |Decimal(n)| > 1 ==> Decimal(n)[0] != '0'
    ensures DigitsValue(Decimal(n)) == n
    decreases n
  {
    if n >= 10 {
      DecimalRoundTrip(n / 10);
      var s := Decimal(n);
      assert s == Decimal(n / 10) + [Digit(n % 10)];
      assert s[..|s| - 1] == Decimal(n / 10);
      assert s[0] == Decimal(n / 10)[0];
    }
  }
}
