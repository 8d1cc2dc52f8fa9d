/** The string operations the program takes from its language: stripping, splitting, joining. */
module Strings {

  /** The characters removed by `str.strip()`. */
  predicate IsSpace(c: char) {
    var n := c as int;
    || 9 <= n <= 13 || 28 <= n <= 32 || n == 0x85 || n == 0xA0 || n == 0x1680
    || 0x2000 <= n <= 0x200A || n == 0x2028 || n == 0x2029 || n == 0x202F || n == 0x205F || n == 0x3000
  }

  function StripLeft(s: string): string {
    if s != [] && IsSpace(s[0]) then StripLeft(s[1..]) else s
  }

  function StripRight(s: string): string {
    if s != [] && IsSpace(s[|s| - 1]) then StripRight(s[..|s| - 1]) else s
  }

  function Strip(s: string): string { StripRight(StripLeft(s)) }

  function StripTrailing(s: string, c: char): string {
    if s != [] && s[|s| - 1] == c then StripTrailing(s[..|s| - 1], c) else s
  }

  /** `str.lower()` on ASCII; other characters are left alone. */
  function Lower(s: string): string {
    seq(|s|, i requires 0 <= i < |s| => if 'A' <= s[i] <= 'Z' then (s[i] as int + 32) as char else s[i])
  }

  function RemovePrefix(s: string, prefix: string): string {
    if prefix <= s then s[|prefix|..] else s
  }

  predicate EndsWith(s: string, suffix: string) {
    |suffix| <= |s| && s[|s| - |suffix|..] == suffix
  }

  predicate IsSuffix<T(==)>(tail: seq<T>, s: seq<T>) {
    |tail| <= |s| && s[|s| - |tail|..] == tail
  }

  /** `s.split(sep)` for a one-character separator. */
  function Split(s: string, sep: char): seq<string> { SplitFrom([], s, sep) }

  /** The parts of `open + s`, when `open` is a part not yet closed. */
  function SplitFrom(open: string, s: string, sep: char): seq<string>
    decreases |s|
  {
    if s == [] then [open]
    else if s[0] == sep then [open] + SplitFrom([], s[1..], sep)
    else SplitFrom(open + [s[0]], s[1..], sep)
  }

  /** `sep.join(parts)`. */
  function Join(parts: seq<string>, sep: char): string {
    if parts == [] then []
    else if |parts| == 1 then parts[0]
    else parts[0] + [sep] + Join(parts[1..], sep)
  }

  lemma {:induction false} JoinSplitFrom(open: string, s: string, sep: char)
    ensures SplitFrom(open, s, sep) != [] && Join(SplitFrom(open, s, sep), sep) == open + s
    decreases |s|
  {
    if s != [] {
      if s[0] == sep {
        JoinSplitFrom([], s[1..], sep);
        assert SplitFrom(open, s, sep)[1..] == SplitFrom([], s[1..], sep);
        assert open + s == open + [sep] + ([] + s[1..]);
      } else {
        JoinSplitFrom(open + [s[0]], s[1..], sep);
        assert open + s == (open + [s[0]]) + s[1..];
      }
    }
  }

  lemma JoinSplit(s: string, sep: char)
    ensures Split(s, sep) != [] && Join(Split(s, sep), sep) == s
  {
    JoinSplitFrom([], s, sep);
    assert [] + s == s;
  }

  /** A separator splits: the parts of the two sides, side by side. */
  lemma {:induction false} SplitAtSeparator(open: string, a: string, b: string, sep: char)
    ensures SplitFrom(open, a + [sep] + b, sep) == SplitFrom(open, a, sep) + Split(b, sep)
    decreases |a|
  {
    var s := a + [sep] + b;
    if a == [] {
      assert s[1..] == b;
    } else {
      assert s[1..] == a[1..] + [sep] + b;
      if a[0] == sep {
        SplitAtSeparator([], a[1..], b, sep);
      } else {
        SplitAtSeparator(open + [a[0]], a[1..], b, sep);
      }
    }
  }

  lemma {:induction false} JoinAppend(a: seq<string>, b: seq<string>, sep: char)
    requires a != [] && b != []
    ensures Join(a + b, sep) == Join(a, sep) + [sep] + Join(b, sep)
  {
    if |a| == 1 {
      assert (a + b)[1..] == b;
    } else {
      assert (a + b)[1..] == a[1..] + b;
      JoinAppend(a[1..], b, sep);
      var rest, other := Join(a[1..], sep), Join(b, sep);
      assert a[0] + [sep] + (rest + [sep] + other) == (a[0] + [sep] + rest) + [sep] + other;
    }
  }

  lemma EndsWithSplits(s: string, tail: string, sep: char)
    requires EndsWith(s, [sep] + tail)
    ensures IsSuffix(Split(tail, sep), Split(s, sep))
  {
    var front := s[..|s| - |tail| - 1];
    assert s == front + [sep] + tail by {
      assert s == front + s[|s| - |tail| - 1..];
    }
    SplitAtSeparator([], front, tail, sep);
  }

  lemma PartsSuffixJoins(s: string, tail: string, sep: char)
    requires IsSuffix(Split(tail, sep), Split(s, sep))
    ensures s == tail || EndsWith(s, [sep] + tail)
  {
    var parts, last := Split(s, sep), Split(tail, sep);
    JoinSplit(s, sep);
    JoinSplit(tail, sep);
    hide Split, Join;
    var front := parts[..|parts| - |last|];
    assert parts == front + last;
    if front != [] {
      JoinAppend(front, last, sep);
      assert s == Join(front, sep) + ([sep] + tail);
    } else {
      assert parts == last;
    }
  }

  /** Being `tail`, or ending in a separator and `tail`, is having the parts of `tail` as the last parts. */
  lemma EndsWithIffPartsSuffix(s: string, tail: string, sep: char)
    ensures s == tail || EndsWith(s, [sep] + tail) <==> IsSuffix(Split(tail, sep), Split(s, sep))
  {
    if EndsWith(s, [sep] + tail) {
      EndsWithSplits(s, tail, sep);
    }
    if IsSuffix(Split(tail, sep), Split(s, sep)) {
      PartsSuffixJoins(s, tail, sep);
    }
  }

  // ---------------------------------------------------------------- what stripping, lowering and splitting leave

  lemma {:induction false} StripLeftBetween(pre: string, s: string)
    requires (forall i | 0 <= i < |pre| :: IsSpace(pre[i])) && (s == "" || !IsSpace(s[0]))
    ensures StripLeft(pre + s) == s
  {
    if pre == [] {
      assert pre + s == s;
    } else {
      assert (pre + s)[1..] == pre[1..] + s;
      StripLeftBetween(pre[1..], s);
    }
  }

  lemma {:induction false} StripRightBetween(s: string, post: string)
    requires (forall i | 0 <= i < |post| :: IsSpace(post[i])) && (s == "" || !IsSpace(s[|s| - 1]))
    ensures StripRight(s + post) == s
  {
    if post == [] {
      assert s + post == s;
    } else {
      assert (s + post)[..|s + post| - 1] == s + post[..|post| - 1];
      StripRightBetween(s, post[..|post| - 1]);
    }
  }

  /** Stripping takes the spaces off both ends, and nothing else. */
  lemma StripBetween(pre: string, s: string, post: string)
    requires forall i | 0 <= i < |pre| :: IsSpace(pre[i])
    requires forall i | 0 <= i < |post| :: IsSpace(post[i])
    requires s != "" && !IsSpace(s[0]) && !IsSpace(s[|s| - 1])
    ensures Strip(pre + s + post) == s
  {
    assert pre + s + post == pre + (s + post) && (s + post)[0] == s[0];
    StripLeftBetween(pre, s + post);
    StripRightBetween(s, post);
  }

  lemma {:induction false} StripTrailingRun(s: string, run: string, c: char)
    requires (forall i | 0 <= i < |run| :: run[i] == c) && (s == "" || s[|s| - 1] != c)
    ensures StripTrailing(s + run, c) == s
  {
    if run == [] {
      assert s + run == s;
    } else {
      assert (s + run)[..|s + run| - 1] == s + run[..|run| - 1];
      StripTrailingRun(s, run[..|run| - 1], c);
    }
  }

  /** The same character, or the same ASCII letter in the other case. */
  predicate SameLetter(c: char, d: char) {
    c == d || ('A' <= c <= 'Z' && d as int == c as int + 32) || ('A' <= d <= 'Z' && c as int == d as int + 32)
  }

  predicate SameButCase(a: string, b: string) { |a| == |b| && forall k | 0 <= k < |a| :: SameLetter(a[k], b[k]) }

  lemma LowerIff(a: string, b: string)
    ensures Lower(a) == Lower(b) <==> SameButCase(a, b)
  {
    if Lower(a) == Lower(b) {
      assert |a| == |Lower(a)| == |Lower(b)| == |b|;
      forall k | 0 <= k < |a| ensures SameLetter(a[k], b[k]) {
        assert Lower(a)[k] == Lower(b)[k];
      }
    }
    if SameButCase(a, b) {
      forall k | 0 <= k < |a| ensures Lower(a)[k] == Lower(b)[k] {
        assert SameLetter(a[k], b[k]);
      }
      assert Lower(a) == Lower(b);
    }
  }

  lemma {:induction false} SplitWhole(open: string, s: string, sep: char)
    requires sep !in s
    ensures SplitFrom(open, s, sep) == [open + s]
    decreases |s|
  {
    if s == [] {
      assert open + s == open;
    } else {
      SplitWhole(open + [s[0]], s[1..], sep);
      assert open + [s[0]] + s[1..] == open + s;
    }
  }

  /** Splitting gives back the parts that were joined, when none of them holds the separator. */
  lemma {:induction false} SplitJoin(parts: seq<string>, sep: char)
    requires parts != [] && forall p | p in parts :: sep !in p
    ensures Split(Join(parts, sep), sep) == parts
  {
    SplitWhole([], parts[0], sep);
    assert [] + parts[0] == parts[0];
    if |parts| > 1 {
      SplitJoin(parts[1..], sep);
      SplitAtSeparator([], parts[0], Join(parts[1..], sep), sep);
      assert parts == [parts[0]] + parts[1..];
    }
  }
}
