/** String operations the two analyzers and the Sheets wrappers rely on:
    ASCII lower-casing, prefix and substring tests, JavaScript/Python `split`
    and `join`, Python `strip`, code-point order, and decimal rendering. */
module Text {

  function Min(a: nat, b: nat): nat { if a <= b then a else b }

  // ---------------------------------------------------------------------------
  // Case and prefix tests

  /** Lower-cases A-Z only; the source's Unicode-aware lower-casing is
      approximated by this ASCII mapping. */
  function LowerChar(c: char): char {
    if 'A' <= c <= 'Z' then (c as int + 32) as char else c
  }

  function Lower(s: string): (r: string)
    ensures |r| == |s|
    ensures forall i :: 0 <= i < |s| ==> r[i] == LowerChar(s[i])
  {
    seq(|s|, i requires 0 <= i < |s| => LowerChar(s[i]))
  }

  /** Lowering twice is lowering once. */
  lemma LowerIdempotent(s: string)
    ensures Lower(Lower(s)) == Lower(s)
  {
    forall i | 0 <= i < |s|
      ensures Lower(Lower(s))[i] == Lower(s)[i]
    {
      assert Lower(s)[i] == LowerChar(s[i]);
    }
  }

  predicate StartsWith(s: string, prefix: string) {
    |prefix| <= |s| && s[..|prefix|] == prefix
  }

  predicate EndsWith(s: string, suffix: string) {
    |suffix| <= |s| && s[|s| - |suffix|..] == suffix
  }

  predicate OccursAt(s: string, sub: string, i: int) {
    0 <= i && i + |sub| <= |s| && s[i..i + |sub|] == sub
  }

  /** Python's `sub in s`: tries every start position from the left. */
  function Contains(s: string, sub: string): (r: bool)
    ensures r <==> exists i :: OccursAt(s, sub, i)
    decreases |s|
  {
    if StartsWith(s, sub) then
      assert OccursAt(s, sub, 0);
      true
    else if |s| == 0 then
      false
    else
      var r := Contains(s[1..], sub);
      assert forall i :: OccursAt(s[1..], sub, i) ==> OccursAt(s, sub, i + 1);
      assert forall i :: OccursAt(s, sub, i) && i > 0 ==> OccursAt(s[1..], sub, i - 1);
      r
  }

  // ---------------------------------------------------------------------------
  // Splitting and joining

  /** Position of the first `c` in `s`, or `|s|` when there is none. */
  function IndexOf(s: string, c: char): (r: nat)
    ensures r <= |s|
    ensures r < |s| ==> s[r] == c
    ensures forall k :: 0 <= k < r ==> s[k] != c
    decreases |s|
  {
    if s == [] then 0
    else if s[0] == c then 0
    else 1 + IndexOf(s[1..], c)
  }

  /** `parts.join(sep)` in JavaScript, `sep.join(parts)` in Python. */
  function Join(parts: seq<string>, sep: string): string
    decreases |parts|
  {
    if |parts| == 0 then ""
    else if |parts| == 1 then parts[0]
    else parts[0] + sep + Join(parts[1..], sep)
  }

  /** A joined text starts with its first piece. */
  lemma JoinStartsWithFirst(parts: seq<string>, sep: string)
    requires |parts| >= 1
    ensures StartsWith(Join(parts, sep), parts[0])
  {
    if |parts| >= 2 {
      assert Join(parts, sep) == parts[0] + (sep + Join(parts[1..], sep));
    }
  }

  /** `s.split(c)` for a one-character separator, in JavaScript and in
      Python alike: never empty, and joining the pieces gives `s` back. */
  function Split(s: string, c: char): (parts: seq<string>)
    ensures |parts| >= 1
    decreases |s|
  {
    if s == [] then [""]
    else
      var rest := Split(s[1..], c);
      if s[0] == c then [""] + rest else [[s[0]] + rest[0]] + rest[1..]
  }

  /** No piece of a split holds the separator. */
  lemma {:induction false} SplitPiecesFree(s: string, c: char)
    ensures forall i :: 0 <= i < |Split(s, c)| ==> c !in Split(s, c)[i]
    decreases |s|
  {
    if s != [] {
      SplitPiecesFree(s[1..], c);
      var rest := Split(s[1..], c);
      if s[0] != c {
        assert c !in [s[0]] + rest[0];
      }
    }
  }

  /** Joining the pieces of a split with the separator gives the text back. */
  lemma {:induction false} JoinSplit(s: string, c: char)
    ensures Join(Split(s, c), [c]) == s
    decreases |s|
  {
    if s != [] {
      var rest := Split(s[1..], c);
      JoinSplit(s[1..], c);
      if s[0] == c {
        JoinCons("", rest, [c]);
      } else {
        JoinPrepend(s[0], rest, [c]);
      }
      assert s == [s[0]] + s[1..];
    }
  }

  lemma JoinPrepend(x: char, parts: seq<string>, sep: string)
    requires |parts| >= 1
    ensures Join([[x] + parts[0]] + parts[1..], sep) == [x] + Join(parts, sep)
  {
    var p := [[x] + parts[0]] + parts[1..];
    if |parts| > 1 {
      assert p[1..] == parts[1..];
    }
  }

  lemma JoinCons(head: string, rest: seq<string>, sep: string)
    requires |rest| >= 1
    ensures Join([head] + rest, sep) == head + sep + Join(rest, sep)
  {
    assert ([head] + rest)[1..] == rest;
  }

  /** A split has a second piece exactly when the separator occurs. */
  lemma SplitHasSecond(s: string, c: char)
    ensures |Split(s, c)| >= 2 <==> c in s
  {
    if c in s {
      JoinSplit(s, c);
    } else {
      SplitFree(s, c);
    }
  }

  /** Four pieces joined by a separator. */
  lemma JoinFour(a: string, b: string, c: string, d: string, sep: string)
    ensures Join([a, b, c, d], sep) == a + sep + b + sep + c + sep + d
  {
    JoinCons(a, [b, c, d], sep);
    JoinCons(b, [c, d], sep);
    JoinCons(c, [d], sep);
    assert a + sep + (b + sep + (c + sep + d)) == a + sep + b + sep + c + sep + d;
  }

  /** Python's `s.split(c, n)`: at most `n` splits, the last piece keeps any
      further separators. */
  function SplitN(s: string, c: char, n: nat): (parts: seq<string>)
    ensures 1 <= |parts| <= n + 1
    decreases n
  {
    var i := IndexOf(s, c);
    if n == 0 || i == |s| then
      [s]
    else
      [s[..i]] + SplitN(s[i + 1..], c, n - 1)
  }

  /** All pieces but the last are free of `c`, and joined with `c` they
      give `s` back. */
  lemma {:induction false} SplitNPieces(s: string, c: char, n: nat)
    ensures var parts := SplitN(s, c, n);
            && (forall i :: 0 <= i < |parts| - 1 ==> c !in parts[i])
            && Join(parts, [c]) == s
    decreases n
  {
    var i := IndexOf(s, c);
    if n > 0 && i < |s| {
      var rest := SplitN(s[i + 1..], c, n - 1);
      SplitNPieces(s[i + 1..], c, n - 1);
      assert SplitN(s, c, n) == [s[..i]] + rest;
      assert s == s[..i] + [c] + s[i + 1..];
      JoinCons(s[..i], rest, [c]);
    }
  }

  /** The number of `c` in `s`. */
  function Count(s: string, c: char): nat
    decreases |s|
  {
    if s == [] then 0 else (if s[0] == c then 1 else 0) + Count(s[1..], c)
  }

  /** Counting from the first `c` on. */
  lemma {:induction false} CountFirst(s: string, c: char, i: nat)
    requires i < |s| && s[i] == c
    requires forall k :: 0 <= k < i ==> s[k] != c
    ensures Count(s, c) == 1 + Count(s[i + 1..], c)
    decreases i
  {
    if i > 0 {
      assert s[1..][i..] == s[i + 1..];
      CountFirst(s[1..], c, i - 1);
    }
  }

  lemma CountAbsent(s: string, c: char)
    requires c !in s
    ensures Count(s, c) == 0
  {
  }

  /** `s.split(c, n)` has `n + 1` pieces when `s` holds at least `n`
      separators, and one more piece than it holds separators otherwise. */
  lemma {:induction false} SplitNCount(s: string, c: char, n: nat)
    ensures |SplitN(s, c, n)| == 1 + Min(n, Count(s, c))
    decreases n
  {
    var i := IndexOf(s, c);
    if i == |s| {
      CountAbsent(s, c);
      SplitNWhole(s, c, n);
    } else if n == 0 {
      SplitNWhole(s, c, n);
    } else {
      var rest := s[i + 1..];
      SplitNHead(s, c, n);
      SplitNCount(rest, c, n - 1);
      CountFirst(s, c, i);
      assert |SplitN(s, c, n)| == 1 + |SplitN(rest, c, n - 1)|;
      assert Count(s, c) == 1 + Count(rest, c);
    }
  }

  /** With no split left or no separator, the text is one piece. */
  lemma SplitNWhole(s: string, c: char, n: nat)
    requires n == 0 || IndexOf(s, c) == |s|
    ensures |SplitN(s, c, n)| == 1
  {
  }

  /** Otherwise the first piece ends at the first separator. */
  lemma SplitNHead(s: string, c: char, n: nat)
    requires n > 0 && IndexOf(s, c) < |s|
    ensures |SplitN(s, c, n)| == 1 + |SplitN(s[IndexOf(s, c) + 1..], c, n - 1)|
  {
  }

  /** The text before the first `c`: `s.split(c)[0]`. */
  function Before(s: string, c: char): (r: string)
    ensures c !in r
    ensures StartsWith(s, r)
    ensures |r| < |s| ==> s[|r|] == c
  {
    s[..IndexOf(s, c)]
  }

  /** The first piece of a split is the text before the first separator. */
  lemma {:induction false} SplitFirstIsBefore(s: string, c: char)
    ensures Split(s, c)[0] == Before(s, c)
    decreases |s|
  {
    if s != [] && s[0] != c {
      SplitFirstIsBefore(s[1..], c);
      var k := IndexOf(s[1..], c);
      assert s[..1 + k] == [s[0]] + s[1..][..k];
    }
  }

  /** The text after the last `c` (all of `s` when it has none): Python's
      `os.path.basename` for `c == '/'`. */
  function AfterLast(s: string, c: char): (r: string)
    ensures c !in r
    ensures EndsWith(s, r)
    ensures |r| < |s| ==> s[|s| - |r| - 1] == c
    decreases |s|
  {
    if s == [] then []
    else if s[|s| - 1] == c then []
    else
      var init := s[..|s| - 1];
      var r := AfterLast(init, c);
      assert init[|init| - |r|..] == r;
      assert s[|s| - 1 - |r|..] == init[|init| - |r|..] + [s[|s| - 1]];
      assert |r| < |init| ==> s[|s| - |r| - 2] == init[|init| - |r| - 1];
      r + [s[|s| - 1]]
  }

  /** The three properties in AfterLast's contract determine its result. */
  lemma AfterLastUnique(s: string, c: char, r: string)
    requires c !in r && EndsWith(s, r)
    requires |r| < |s| ==> s[|s| - |r| - 1] == c
    ensures r == AfterLast(s, c)
  {
  }

  /** A joined text ends with its last piece, preceded by the separator
      when there is more than one piece. */
  lemma {:induction false} JoinEndsWithLast(parts: seq<string>, sep: string)
    requires |parts| >= 1
    ensures EndsWith(Join(parts, sep), parts[|parts| - 1])
    ensures |parts| >= 2 ==> EndsWith(Join(parts, sep), sep + parts[|parts| - 1])
    decreases |parts|
  {
    if |parts| >= 2 {
      JoinEndsWithLast(parts[1..], sep);
    }
  }

  /** JavaScript's `s.split(c).pop()` is the text after the last `c`. */
  lemma SplitLastIsAfterLast(s: string, c: char)
    ensures var parts := Split(s, c); parts[|parts| - 1] == AfterLast(s, c)
  {
    JoinSplit(s, c);
    SplitPiecesFree(s, c);
    LastPieceIsAfterLast(s, c, Split(s, c));
  }

  /** In pieces free of `c` that join with `c` to `s`, the last piece is the
      text after the last `c` of `s`. */
  lemma LastPieceIsAfterLast(s: string, c: char, parts: seq<string>)
    requires |parts| >= 1 && Join(parts, [c]) == s
    requires forall i :: 0 <= i < |parts| ==> c !in parts[i]
    ensures parts[|parts| - 1] == AfterLast(s, c)
  {
    var last := parts[|parts| - 1];
    JoinEndsWithLast(parts, [c]);
    if |parts| >= 2 {
      var tail := [c] + last;
      assert s[|s| - |last| - 1] == tail[0];
    }
    AfterLastUnique(s, c, last);
  }



  /** The first piece of a text joined with `c`, when free of `c`, ends at
      the first `c`, and the rest is the join of the remaining pieces. */
  lemma JoinFirst(parts: seq<string>, c: char)
    requires |parts| >= 2 && c !in parts[0]
    ensures var s := Join(parts, [c]);
      && IndexOf(s, c) == |parts[0]|
      && s[..|parts[0]|] == parts[0]
      && s[|parts[0]| + 1..] == Join(parts[1..], [c])
  {
    var s := Join(parts, [c]);
    var rest := Join(parts[1..], [c]);
    assert s == parts[0] + [c] + rest;
    IndexOfAfterFree(parts[0], c, rest);
  }

  /** Splitting pieces that were joined gives the pieces back. */
  lemma {:induction false} SplitJoin(parts: seq<string>, c: char)
    requires |parts| >= 1
    requires forall i :: 0 <= i < |parts| ==> c !in parts[i]
    ensures Split(Join(parts, [c]), c) == parts
    decreases |parts|
  {
    if |parts| == 1 {
      SplitFree(parts[0], c);
    } else {
      var rest := Join(parts[1..], [c]);
      assert Join(parts, [c]) == parts[0] + [c] + rest;
      SplitAfterFree(parts[0], c, rest);
      SplitJoin(parts[1..], c);
    }
  }

  /** A text without `c` splits into itself. */
  lemma {:induction false} SplitFree(a: string, c: char)
    requires c !in a
    ensures Split(a, c) == [a]
    decreases |a|
  {
    if a != [] {
      SplitFree(a[1..], c);
      assert a == [a[0]] + a[1..];
    }
  }

  /** Splitting at a first `c` that follows `c`-free text `a`. */
  lemma {:induction false} SplitAfterFree(a: string, c: char, b: string)
    requires c !in a
    ensures Split(a + [c] + b, c) == [a] + Split(b, c)
    decreases |a|
  {
    if a == [] {
      assert [c] + b == a + [c] + b;
      assert ([c] + b)[1..] == b;
    } else {
      var s := a + [c] + b;
      assert s[1..] == a[1..] + [c] + b;
      SplitAfterFree(a[1..], c, b);
      assert a == [a[0]] + a[1..];
    }
  }

  /** The first `c` in `a + [c] + b` is the one after `a` when `a` has none. */
  lemma IndexOfAfterFree(a: string, c: char, b: string)
    requires c !in a
    ensures IndexOf(a + [c] + b, c) == |a|
  {
    var s := a + [c] + b;
    assert s[|a|] == c;
    assert forall k :: 0 <= k < |a| ==> s[k] == a[k];
  }

  /** Python's `split(c, n)` applied to pieces joined with `c`, the first `n`
      of them free of `c`, gives them back. */
  lemma {:induction false} SplitNJoin(parts: seq<string>, c: char)
    requires |parts| >= 1
    requires forall i :: 0 <= i < |parts| - 1 ==> c !in parts[i]
    ensures SplitN(Join(parts, [c]), c, |parts| - 1) == parts
    decreases |parts|
  {
    if |parts| > 1 {
      JoinFirst(parts, c);
      SplitNJoin(parts[1..], c);
    }
  }

  // ---------------------------------------------------------------------------
  // Python's str.strip()

  /** The characters for which Python's `str.isspace` holds. */
  predicate IsSpace(c: char) {
    c == ' ' || c == '\t' || c == '\n' || c == '\r' || c == '\U{000B}' || c == '\U{000C}'
    || ('\U{001C}' <= c <= '\U{001F}') || c == '\U{0085}' || c == '\U{00A0}' || c == '\U{1680}'
    || ('\U{2000}' <= c <= '\U{200A}') || c == '\U{2028}' || c == '\U{2029}' || c == '\U{202F}'
    || c == '\U{205F}' || c == '\U{3000}'
  }

  function StripStart(s: string): (r: string)
    ensures EndsWith(s, r)
    ensures r == [] || !IsSpace(r[0])
    ensures forall k :: 0 <= k < |s| - |r| ==> IsSpace(s[k])
    decreases |s|
  {
    if s != [] && IsSpace(s[0]) then
      var r := StripStart(s[1..]);
      assert s[|s| - |r|..] == s[1..][|s| - 1 - |r|..];
      r
    else s
  }

  function StripEnd(s: string): (r: string)
    ensures StartsWith(s, r)
    ensures r == [] || !IsSpace(r[|r| - 1])
    ensures forall k :: |r| <= k < |s| ==> IsSpace(s[k])
    decreases |s|
  {
    if s != [] && IsSpace(s[|s| - 1]) then
      var r := StripEnd(s[..|s| - 1]);
      assert s[..|r|] == s[..|s| - 1][..|r|];
      r
    else s
  }

  /** Python's `s.strip()`: leading and trailing whitespace removed. */
  function Strip(s: string): (r: string)
    ensures r == [] || (!IsSpace(r[0]) && !IsSpace(r[|r| - 1]))
  {
    StripEnd(StripStart(s))
  }

  /** Stripping removes whitespace at the two ends and nothing else: the
      result is the slice of `s` that starts after the `i` leading
      characters dropped, with only whitespace before and after it. */
  lemma StripMeans(s: string)
    ensures var r := Strip(s);
            var i := |s| - |StripStart(s)|;
            && 0 <= i <= |s| - |r| && r == s[i..i + |r|]
            && (forall k :: 0 <= k < i ==> IsSpace(s[k]))
            && (forall k :: i + |r| <= k < |s| ==> IsSpace(s[k]))
  {
    var t := StripStart(s);
    var r := StripEnd(t);
    assert Strip(s) == r;
    SliceOfSuffix(s, t, r);
  }

  /** A prefix `r` of a suffix `t` of `s` is the slice of `s` after the
      characters that `t` leaves out, and what follows `r` in `t` follows
      it in `s`. */
  lemma SliceOfSuffix(s: string, t: string, r: string)
    requires EndsWith(s, t) && StartsWith(t, r)
    requires forall k :: |r| <= k < |t| ==> IsSpace(t[k])
    ensures var i := |s| - |t|;
            && r == s[i..i + |r|]
            && (forall k :: i + |r| <= k < |s| ==> IsSpace(s[k]))
  {
    var i := |s| - |t|;
    assert t == s[i..];
    forall k | i + |r| <= k < |s|
      ensures IsSpace(s[k])
    {
      assert s[k] == t[k - i];
    }
  }

  /** Text that neither starts nor ends with whitespace is left as it is. */
  lemma StripNoop(s: string)
    requires s == [] || (!IsSpace(s[0]) && !IsSpace(s[|s| - 1]))
    ensures Strip(s) == s
  {
  }

  // ---------------------------------------------------------------------------
  // Code-point lexicographic order: Python's string comparison, and the model
  // of JavaScript's `localeCompare`

  predicate LessEq(a: string, b: string)
    decreases |a|
  {
    |a| == 0 || (|b| > 0 && (a[0] < b[0] || (a[0] == b[0] && LessEq(a[1..], b[1..]))))
  }

  lemma {:induction false} LessEqRefl(a: string)
    ensures LessEq(a, a)
    decreases |a|
  {
    if |a| > 0 {
      LessEqRefl(a[1..]);
    }
  }

  lemma {:induction false} LessEqTotal(a: string, b: string)
    ensures LessEq(a, b) || LessEq(b, a)
    decreases |a|
  {
    if |a| > 0 && |b| > 0 && a[0] == b[0] {
      LessEqTotal(a[1..], b[1..]);
    }
  }

  lemma {:induction false} LessEqTrans(a: string, b: string, c: string)
    requires LessEq(a, b) && LessEq(b, c)
    ensures LessEq(a, c)
    decreases |a|
  {
    if |a| > 0 && a[0] == b[0] && b[0] == c[0] {
      LessEqTrans(a[1..], b[1..], c[1..]);
    }
  }

  lemma {:induction false} LessEqAntisym(a: string, b: string)
    requires LessEq(a, b) && LessEq(b, a)
    ensures a == b
    decreases |a|
  {
    if |a| > 0 {
      LessEqAntisym(a[1..], b[1..]);
      assert a == [a[0]] + a[1..] && b == [b[0]] + b[1..];
    }
  }

  // ---------------------------------------------------------------------------
  // Decimal rendering of counts (`${n}` in JavaScript, f"{n}" in Python)

  predicate IsDigits(s: string) {
    forall i :: 0 <= i < |s| ==> '0' <= s[i] <= '9'
  }

  function DigitChar(d: nat): (c: char)
    requires d < 10
    ensures '0' <= c <= '9' && c as int - '0' as int == d
  {
    ('0' as int + d) as char
  }

  function NatToString(n: nat): (r: string)
    ensures |r| >= 1 && IsDigits(r)
    ensures r[0] == '0' ==> n == 0
    decreases n
  {
    if n < 10 then [DigitChar(n)] else NatToString(n / 10) + [DigitChar(n % 10)]
  }

  /** The value of a string of decimal digits. */
  function DigitsValue(s: string): nat
    requires IsDigits(s)
    decreases |s|
  {
    if s == [] then 0 else 10 * DigitsValue(s[..|s| - 1]) + (s[|s| - 1] as int - '0' as int)
  }

  /** Reading the rendered digits back gives the count. */
  lemma {:induction false} NatToStringRoundTrip(n: nat)
    ensures DigitsValue(NatToString(n)) == n
    decreases n
  {
    if n >= 10 {
      NatToStringRoundTrip(n / 10);
      var s := NatToString(n);
      assert s[..|s| - 1] == NatToString(n / 10);
    }
  }

  /** Different counts render differently. */
  lemma NatToStringInjective(m: nat, n: nat)
    requires NatToString(m) == NatToString(n)
    ensures m == n
  {
    NatToStringRoundTrip(m);
    NatToStringRoundTrip(n);
  }
}
