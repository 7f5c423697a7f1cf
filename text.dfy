/** The Python string and path operations the scripts rely on: decimal
    rendering, code-point comparison, `str.replace`, `os.path.basename` and
    `glob` patterns of the form `prefix*suffix`. Also `str.split`, which no
    script calls. It states what a reader of the output recovers: the uid
    fields, the JSON Lines rows, and the owner and name of a repository id. */
module Text {

  predicate IsDigit(c: char) {
    '0' <= c <= '9'
  }

  predicate IsHexDigit(c: char) {
    '0' <= c <= '9' || 'a' <= c <= 'f'
  }

  function DigitChar(d: nat): char
    requires d < 10
  {
    (48 + d) as char
  }

  function Pow10(w: nat): (p: nat)
    ensures p >= 1
  {
    if w == 0 then 1 else 10 * Pow10(w - 1)
  }

  // ---------------------------------------------------------------------
  // Decimal rendering

  /** `str(n)` / `f"{n}"` for a natural number: digits, no leading zero. */
  function NatToString(n: nat): (s: string)
    ensures |s| >= 1
    ensures forall k :: 0 <= k < |s| ==> IsDigit(s[k])
    ensures n >= 10 ==> |s| >= 2
  {
    if n < 10 then [DigitChar(n)] else NatToString(n / 10) + [DigitChar(n % 10)]
  }

  /** `str(n)` for any integer: a minus sign before the digits of a negative one. */
  function IntToString(n: int): (s: string)
    ensures n >= 0 ==> '-' !in s
  {
    if n >= 0 then NatToString(n) else "-" + NatToString(-n)
  }

  /** Distinct numbers have distinct decimal renderings. */
  lemma {:induction false} NatToStringInjective(a: nat, b: nat)
    requires NatToString(a) == NatToString(b)
    ensures a == b
  {
    var s := NatToString(a);
    if a >= 10 && b >= 10 {
      var sa, sb := NatToString(a / 10), NatToString(b / 10);
      assert s == sa + [DigitChar(a % 10)];
      assert s == sb + [DigitChar(b % 10)];
      assert |sa| == |sb|;
      assert sa == s[..|s| - 1] == sb;
      assert DigitChar(a % 10) == s[|s| - 1] == DigitChar(b % 10);
      NatToStringInjective(a / 10, b / 10);
    } else if a >= 10 || b >= 10 {
      assert false;
    }
  }

  /** `n` in decimal, zero-padded to `width` digits. This agrees with `%0<width>d`
      when `n < Pow10(width)`, which every field of a clock reading meets;
      `%0<width>d` never truncates a wider number. */
  function Digits(n: nat, width: nat): (s: string)
    ensures |s| == width
    ensures forall k :: 0 <= k < |s| ==> IsDigit(s[k])
  {
    if width == 0 then [] else Digits(n / 10, width - 1) + [DigitChar(n % 10)]
  }

  // ---------------------------------------------------------------------
  // Code-point (lexicographic) order, as Python compares `str` values

  predicate Less(a: string, b: string)
    decreases |a|
  {
    if |a| == 0 then |b| > 0
    else if |b| == 0 then false
    else if a[0] != b[0] then a[0] < b[0]
    else Less(a[1..], b[1..])
  }

  lemma {:induction false} LessIrreflexive(a: string)
    ensures !Less(a, a)
    decreases |a|
  {
    if |a| > 0 {
      LessIrreflexive(a[1..]);
    }
  }

  lemma {:induction false} LessAsymmetric(a: string, b: string)
    requires Less(a, b)
    ensures !Less(b, a)
    decreases |a|
  {
    if |a| > 0 && |b| > 0 && a[0] == b[0] {
      LessAsymmetric(a[1..], b[1..]);
    }
  }

  lemma {:induction false} LessTransitive(a: string, b: string, c: string)
    requires Less(a, b) && Less(b, c)
    ensures Less(a, c)
    decreases |a|
  {
    if |a| > 0 && a[0] == b[0] && b[0] == c[0] {
      LessTransitive(a[1..], b[1..], c[1..]);
    }
  }

  /** Any two distinct strings are ordered one way or the other. */
  lemma {:induction false} LessTotal(a: string, b: string)
    requires a != b
    ensures Less(a, b) || Less(b, a)
    decreases |a|
  {
    if |a| > 0 && |b| > 0 && a[0] == b[0] {
      assert a == [a[0]] + a[1..] && b == [b[0]] + b[1..];
      LessTotal(a[1..], b[1..]);
    }
  }

  /** Comparing two concatenations whose first parts have equal length
      compares the first parts, and only on a tie the second parts. */
  lemma {:induction false} LessAppend(a: string, b: string, c: string, d: string)
    requires |a| == |b|
    ensures Less(a + c, b + d) <==> Less(a, b) || (a == b && Less(c, d))
    ensures a + c == b + d <==> a == b && c == d
    decreases |a|
  {
    if |a| == 0 {
      assert a + c == c && b + d == d;
    } else {
      assert (a + c)[0] == a[0] && (b + d)[0] == b[0];
      assert (a + c)[1..] == a[1..] + c && (b + d)[1..] == b[1..] + d;
      if a[0] == b[0] {
        LessAppend(a[1..], b[1..], c, d);
        assert a == [a[0]] + a[1..] && b == [b[0]] + b[1..];
        if a + c == b + d {
          assert (a + c)[..|a|] == a && (b + d)[..|b|] == b;
          assert (a + c)[|a|..] == c && (b + d)[|b|..] == d;
        }
      } else {
        assert a != b;
        assert (a + c)[0] != (b + d)[0];
      }
    }
  }

  /** Fixed-width zero-padded numbers compare as strings exactly as they
      compare as numbers. */
  lemma {:induction false} DigitsOrder(n: nat, m: nat, w: nat)
    requires n < Pow10(w) && m < Pow10(w)
    ensures Less(Digits(n, w), Digits(m, w)) <==> n < m
    ensures Digits(n, w) == Digits(m, w) <==> n == m
  {
    if w == 0 {
      assert n == 0 && m == 0;
    } else {
      DigitsOrder(n / 10, m / 10, w - 1);
      var cn, cm := DigitChar(n % 10), DigitChar(m % 10);
      LessAppend(Digits(n / 10, w - 1), Digits(m / 10, w - 1), [cn], [cm]);
      assert Less([cn], [cm]) <==> n % 10 < m % 10 by {
        if cn == cm {
          assert [cn][1..] == [] && [cm][1..] == [];
        }
      }
      assert [cn] == [cm] <==> n % 10 == m % 10 by {
        if [cn] == [cm] { assert cn == [cn][0] == [cm][0] == cm; }
      }
      assert n == 10 * (n / 10) + n % 10 && m == 10 * (m / 10) + m % 10;
    }
  }

  /** Prefixing both sides with the same string keeps their order. */
  lemma CommonPrefixOrder(p: string, a: string, b: string)
    ensures Less(p + a, p + b) <==> Less(a, b)
  {
    LessAppend(p, p, a, b);
    LessIrreflexive(p);
  }

  /** Suffixing two strings of equal length with the same string keeps their order. */
  lemma CommonSuffixOrder(a: string, b: string, q: string)
    requires |a| == |b|
    ensures Less(a + q, b + q) <==> Less(a, b)
  {
    LessAppend(a, b, q, q);
    LessIrreflexive(q);
  }

  // ---------------------------------------------------------------------
  // str.split with a one-character separator

  /** `s.split(sep)`: the maximal separator-free pieces, in order; an empty
      string gives one empty piece and a trailing separator a trailing
      empty piece. */
  function Split(s: string, sep: char): (parts: seq<string>)
    ensures |parts| >= 1
    ensures forall k :: 0 <= k < |parts| ==> sep !in parts[k]
    decreases |s|
  {
    if s == [] then [""]
    else
      var rest := Split(s[1..], sep);
      if s[0] == sep then [""] + rest
      else [[s[0]] + rest[0]] + rest[1..]
  }

  lemma {:induction false} SplitNoSeparator(a: string, sep: char)
    requires sep !in a
    ensures Split(a, sep) == [a]
    decreases |a|
  {
    if a != [] {
      SplitNoSeparator(a[1..], sep);
      assert a == [a[0]] + a[1..];
    }
  }

  /** A separator-free first piece comes off the front. */
  lemma {:induction false} SplitFront(a: string, sep: char, b: string)
    requires sep !in a
    ensures Split(a + [sep] + b, sep) == [a] + Split(b, sep)
    decreases |a|
  {
    var s := a + [sep] + b;
    if a == [] {
      assert s[1..] == b;
    } else {
      assert s[0] == a[0] && s[1..] == a[1..] + [sep] + b;
      SplitFront(a[1..], sep, b);
      assert a == [a[0]] + a[1..];
    }
  }

  /** A separator-free last piece comes off the back. */
  lemma {:induction false} SplitBack(p: string, sep: char, b: string)
    requires sep !in b
    ensures Split(p + [sep] + b, sep) == Split(p, sep) + [b]
    decreases |p|
  {
    var s := p + [sep] + b;
    if p == [] {
      assert s == [sep] + b && s[1..] == b;
      SplitNoSeparator(b, sep);
    } else {
      assert s[0] == p[0] && s[1..] == p[1..] + [sep] + b;
      SplitBack(p[1..], sep, b);
    }
  }

  // ---------------------------------------------------------------------
  // str.replace

  /** `s.replace(from, to)` for one-character arguments: every `from` becomes
      `to`, every other character keeps its place. */
  function ReplaceChar(s: string, from: char, to: char): (r: string)
    ensures |r| == |s|
    ensures forall k :: 0 <= k < |s| ==> r[k] == (if s[k] == from then to else s[k])
  {
    if s == [] then [] else [if s[0] == from then to else s[0]] + ReplaceChar(s[1..], from, to)
  }

  predicate HasPrefix(s: string, pat: string) {
    |pat| <= |s| && s[..|pat|] == pat
  }

  /** `pat in s` for a non-empty pattern. */
  predicate Contains(s: string, pat: string)
    decreases |s|
  {
    |pat| <= |s| && (HasPrefix(s, pat) || Contains(s[1..], pat))
  }

  /** No proper prefix of `pat` is also a suffix of it, so two occurrences
      of `pat` can never overlap. */
  predicate Borderless(pat: string) {
    forall k :: 0 < k < |pat| ==> pat[..k] != pat[|pat| - k..]
  }

  /** `s.replace(pat, "")`: occurrences of `pat` are found from the left,
      without overlap, and deleted. */
  function RemoveAll(s: string, pat: string): (r: string)
    requires pat != []
    ensures |r| <= |s|
    ensures !Contains(s, pat) ==> r == s
    decreases |s|
  {
    if |s| < |pat| then s
    else if s[..|pat|] == pat then RemoveAll(s[|pat|..], pat)
    else
      assert s == [s[0]] + s[1..];
      [s[0]] + RemoveAll(s[1..], pat)
  }

  /** A string that lacks one of the pattern's characters cannot contain it. */
  lemma {:induction false} MissingCharNotContained(s: string, pat: string, k: nat)
    requires k < |pat| && pat[k] !in s
    ensures !Contains(s, pat)
    decreases |s|
  {
    if |pat| <= |s| {
      assert s[..|pat|][k] == s[k];
      assert s[k] in s;
      assert forall c :: c in s[1..] ==> c in s;
      MissingCharNotContained(s[1..], pat, k);
    }
  }

  /** Deleting a borderless pattern from `f + pat`, where `f` holds no
      occurrence of it, gives back `f`. */
  lemma {:induction false} RemoveAllSuffix(f: string, pat: string)
    requires pat != [] && Borderless(pat) && !Contains(f, pat)
    ensures RemoveAll(f + pat, pat) == f
    decreases |f|
  {
    var s := f + pat;
    if f == [] {
      assert s == pat && s[|pat|..] == [];
    } else {
      assert s[..|pat|] != pat by {
        if |f| >= |pat| {
          assert s[..|pat|] == f[..|pat|];
          assert !HasPrefix(f, pat);
        } else {
          var k := |pat| - |f|;
          assert s[..|pat|][|f|..] == pat[..k];
          assert pat[..k] != pat[|pat| - k..];
        }
      }
      assert s[1..] == f[1..] + pat;
      assert !Contains(f[1..], pat) by {
        if |pat| <= |f| - 1 { assert Contains(f[1..], pat) ==> Contains(f, pat); }
        else { assert |f[1..]| < |pat|; }
      }
      RemoveAllSuffix(f[1..], pat);
    }
  }

  // ---------------------------------------------------------------------
  // Paths and glob patterns

  /** `os.path.basename` on POSIX: what follows the last `/`. */
  function Basename(p: string): (r: string)
    ensures '/' !in r
    ensures |r| <= |p| && forall k :: 0 <= k < |r| ==> r[k] == p[|p| - |r| + k]
  {
    if p == [] then []
    else if p[|p| - 1] == '/' then []
    else Basename(p[..|p| - 1]) + [p[|p| - 1]]
  }

  /** The basename of `dir/name` is `name` when the name holds no slash. */
  lemma {:induction false} BasenameOfJoin(dir: string, name: string)
    requires '/' !in name
    ensures Basename(dir + "/" + name) == name
    decreases |name|
  {
    if name == [] {
      var p := dir + "/";
      assert dir + "/" + name == p && p[|p| - 1] == '/';
    } else {
      var n := |name| - 1;
      var init := name[..n];
      assert name == init + [name[n]];
      var q := dir + "/" + init;
      var p := q + [name[n]];
      assert dir + "/" + name == p;
      assert forall k :: 0 <= k < |init| ==> init[k] == name[k];
      BasenameOfJoin(dir, init);
      assert p[..|p| - 1] == q && p[|p| - 1] == name[n];
    }
  }

  /** The shell pattern `prefix*suffix` (with `*` free of `/`) on a directory entry name. */
  predicate MatchesGlob(name: string, prefix: string, suffix: string) {
    && |prefix| + |suffix| <= |name|
    && name[..|prefix|] == prefix
    && name[|name| - |suffix|..] == suffix
    && '/' !in name
  }
}
