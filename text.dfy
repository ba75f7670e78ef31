/** The handful of Python string built-ins the task manager relies on:
    `str.strip()`, `str.split('\n')`, `in` on strings, `str.isdigit()`,
    `int(...)`, `str(...)` and the `{:02}` format. */
module Text {

  /** The characters for which Python's `str.isspace()` holds, i.e. the ones
      `str.strip()` with no argument removes. */
  const Whitespace: seq<char> := [
    ' ', '\t', '\n', '\U{0B}', '\U{0C}', '\r', '\U{1C}', '\U{1D}', '\U{1E}', '\U{1F}',
    '\U{85}', '\U{A0}', '\U{1680}',
    '\U{2000}', '\U{2001}', '\U{2002}', '\U{2003}', '\U{2004}', '\U{2005}',
    '\U{2006}', '\U{2007}', '\U{2008}', '\U{2009}', '\U{200A}',
    '\U{2028}', '\U{2029}', '\U{202F}', '\U{205F}', '\U{3000}']

  predicate IsSpace(c: char) {
    SpaceFrom(c, 0)
  }

  /** `c` is one of the entries of `Whitespace` from index `i` on. */
  predicate SpaceFrom(c: char, i: nat)
    decreases |Whitespace| - i
  {
    i < |Whitespace| && (c == Whitespace[i] || SpaceFrom(c, i + 1))
  }

  predicate AllSpace(s: string) {
    forall k | 0 <= k < |s| :: IsSpace(s[k])
  }

  /** `s.rstrip()`: the prefix of `s` left after dropping trailing whitespace. */
  function RStrip(s: string): (r: string)
    ensures |r| <= |s| && r == s[..|r|]
    ensures AllSpace(s[|r|..])
    ensures r == [] || !IsSpace(r[|r| - 1])
  {
    if s != [] && IsSpace(s[|s| - 1]) then
      var init := s[..|s| - 1];
      var r := RStrip(init);
      assert r == s[..|r|] by {
        assert init[..|r|] == s[..|r|];
      }
      assert AllSpace(s[|r|..]) by {
        forall k | 0 <= k < |s| - |r| ensures IsSpace(s[|r|..][k]) {
          if k < |init| - |r| {
            assert s[|r|..][k] == init[|r|..][k];
          }
        }
      }
      r
    else s
  }

  /** `s.strip()`: leading whitespace is skipped, then the rest is right-stripped. */
  function Strip(s: string): (r: string)
    ensures r == [] || (!IsSpace(r[0]) && !IsSpace(r[|r| - 1]))
    ensures r == [] <==> AllSpace(s)
  {
    if s != [] && IsSpace(s[0]) then
      var r := Strip(s[1..]);
      assert AllSpace(s) <==> AllSpace(s[1..]) by {
        if AllSpace(s[1..]) {
          forall k | 0 <= k < |s| ensures IsSpace(s[k]) {
            if k > 0 { assert s[k] == s[1..][k - 1]; }
          }
        }
      }
      r
    else
      var r := RStrip(s);
      assert r == [] ==> AllSpace(s) by {
        assert s[0..] == s;
      }
      r
  }

  /** The number of leading whitespace characters of `s`. */
  function Lead(s: string): (n: nat)
    ensures n <= |s| && AllSpace(s[..n])
    ensures n == |s| || !IsSpace(s[n])
  {
    if s != [] && IsSpace(s[0]) then
      var n := 1 + Lead(s[1..]);
      forall k | 0 <= k < n ensures IsSpace(s[..n][k]) {
        if k > 0 { assert s[..n][k] == s[1..][..n - 1][k - 1]; }
      }
      n
    else 0
  }

  lemma {:induction false} StripAfterLead(s: string)
    ensures Strip(s) == RStrip(s[Lead(s)..])
  {
    if s != [] && IsSpace(s[0]) {
      StripAfterLead(s[1..]);
      assert s[1..][Lead(s[1..])..] == s[Lead(s)..];
    }
  }

  /** Right-stripping a suffix of `s` leaves an infix of `s` followed by
      whitespace only. */
  lemma RStripSuffix(s: string, i: int)
    requires 0 <= i <= |s|
    ensures var r := RStrip(s[i..]);
            && i + |r| <= |s| && r == s[i..i + |r|] && AllSpace(s[i + |r|..])
  {
    var t, r := s[i..], RStrip(s[i..]);
    assert t[..|r|] == s[i..i + |r|];
    assert t[|r|..] == s[i + |r|..];
  }

  /** `strip` removes only whitespace, and only at the two ends: what is left
      is the infix of `s` that starts after its leading whitespace. */
  lemma StripIsInfix(s: string)
    ensures var i, r := Lead(s), Strip(s);
            && i + |r| <= |s| && r == s[i..i + |r|]
            && AllSpace(s[..i]) && AllSpace(s[i + |r|..])
  {
    StripAfterLead(s);
    RStripSuffix(s, Lead(s));
  }

  /** Stripping twice is stripping once. */
  lemma StripIdempotent(s: string)
    ensures Strip(Strip(s)) == Strip(s)
  {
    var r := Strip(s);
    if r != [] {
      assert RStrip(r) == r;
    }
  }

  /** Python's `s.split(sep)` with an explicit one-character separator:
      always at least one part, and `""` splits to `[""]`. */
  function Split(s: string, sep: char): (r: seq<string>)
    ensures |r| >= 1
    ensures forall i | 0 <= i < |r| :: sep !in r[i]
  {
    if s == [] then [[]]
    else
      var rest := Split(s[1..], sep);
      if s[0] == sep then [[]] + rest else [[s[0]] + rest[0]] + rest[1..]
  }

  /** `sep.join(parts)`. */
  function Join(parts: seq<string>, sep: char): string {
    if |parts| == 0 then []
    else if |parts| == 1 then parts[0]
    else parts[0] + [sep] + Join(parts[1..], sep)
  }

  /** Splitting loses nothing: joining the parts gives the text back. */
  lemma {:induction false} JoinSplit(s: string, sep: char)
    ensures Join(Split(s, sep), sep) == s
  {
    if s != [] {
      var rest := Split(s[1..], sep);
      JoinSplit(s[1..], sep);
      if s[0] == sep {
        assert Split(s, sep) == [[]] + rest;
        assert ([[]] + rest)[1..] == rest;
      } else {
        var parts := Split(s, sep);
        assert parts == [[s[0]] + rest[0]] + rest[1..];
        if |rest| == 1 {
          assert parts == [[s[0]] + rest[0]];
        } else {
          assert parts[1..] == rest[1..];
          assert Join(rest, sep) == rest[0] + [sep] + Join(rest[1..], sep);
        }
      }
    }
  }

  /** Joining parts free of the separator and splitting again gives the parts back. */
  lemma {:induction false} SplitJoin(parts: seq<string>, sep: char)
    requires |parts| >= 1
    requires forall i | 0 <= i < |parts| :: sep !in parts[i]
    ensures Split(Join(parts, sep), sep) == parts
  {
    if |parts| == 1 {
      SplitNoSeparator(parts[0], sep);
    } else {
      SplitJoin(parts[1..], sep);
      SplitConcat(parts[0], Join(parts[1..], sep), sep);
      assert [parts[0]] + parts[1..] == parts;
    }
  }

  lemma {:induction false} SplitNoSeparator(s: string, sep: char)
    requires sep !in s
    ensures Split(s, sep) == [s]
  {
    if s != [] {
      assert s[0] != sep;
      assert sep !in s[1..];
      SplitNoSeparator(s[1..], sep);
      assert [s[0]] + s[1..] == s;
    }
  }

  /** Splitting `a + sep + b` where `a` has no separator yields `a` followed by the parts of `b`. */
  lemma {:induction false} SplitConcat(a: string, b: string, sep: char)
    requires sep !in a
    ensures Split(a + [sep] + b, sep) == [a] + Split(b, sep)
  {
    if a == [] {
      assert [sep] + b == a + [sep] + b;
      assert ([sep] + b)[1..] == b;
    } else {
      var s := a + [sep] + b;
      assert s[0] == a[0];
      assert s[1..] == a[1..] + [sep] + b;
      assert sep !in a[1..];
      SplitConcat(a[1..], b, sep);
      assert [a[0]] + a[1..] == a;
    }
  }

  /** A line kept by the editor and the store: non-empty, with no whitespace at either end. */
  predicate IsClean(s: string) {
    s != [] && !IsSpace(s[0]) && !IsSpace(s[|s| - 1])
  }

  /** The entry `x` contributes to a cleaned list: `[x.strip()]`, or nothing when it is blank. */
  function CleanLine(x: string): (r: seq<string>)
    ensures |r| <= 1 && (r == [] <==> AllSpace(x))
    ensures forall i | 0 <= i < |r| :: IsClean(r[i])
  {
    var t := Strip(x);
    if t == [] then [] else [t]
  }

  /** `[x.strip() for x in xs if x.strip()]`: every entry stripped, the
      blank ones dropped, the order kept. */
  function Clean(xs: seq<string>): (r: seq<string>)
    ensures |r| <= |xs|
    ensures forall i | 0 <= i < |r| :: IsClean(r[i])
  {
    if xs == [] then [] else Clean(xs[..|xs| - 1]) + CleanLine(xs[|xs| - 1])
  }

  lemma CleanSnoc(xs: seq<string>, x: string)
    ensures Clean(xs + [x]) == Clean(xs) + CleanLine(x)
  {
    var ys := xs + [x];
    assert ys[..|ys| - 1] == xs;
  }

  /** Cleaning one more entry of a prefix. */
  lemma CleanPrefix(xs: seq<string>, i: int)
    requires 0 <= i < |xs|
    ensures Clean(xs[..i + 1]) == Clean(xs[..i]) + CleanLine(xs[i])
  {
    assert xs[..i + 1] == xs[..i] + [xs[i]];
    CleanSnoc(xs[..i], xs[i]);
  }

  lemma CleanWhole(xs: seq<string>)
    ensures Clean(xs[..|xs|]) == Clean(xs)
  {
    assert xs[..|xs|] == xs;
  }

  /** Cleaning distributes over concatenation: the order of the input is kept. */
  lemma {:induction false} CleanAppend(a: seq<string>, b: seq<string>)
    ensures Clean(a + b) == Clean(a) + Clean(b)
  {
    if b == [] {
      assert a + b == a;
    } else {
      var init, last := b[..|b| - 1], b[|b| - 1];
      assert b == init + [last];
      assert a + b == (a + init) + [last];
      CleanAppend(a, init);
      CleanSnoc(a + init, last);
      CleanSnoc(init, last);
    }
  }

  /** One entry is kept, stripped, exactly when it is not blank. */
  lemma CleanOne(x: string)
    ensures Clean([x]) == if Strip(x) == [] then [] else [Strip(x)]
  {
    assert [x][..0] == [];
  }

  /** Every survivor of the clean-up is some entry, stripped. */
  lemma {:induction false} CleanSound(xs: seq<string>, y: string)
    requires y in Clean(xs)
    ensures y != [] && exists i | 0 <= i < |xs| :: Strip(xs[i]) == y
  {
    var init, x := xs[..|xs| - 1], xs[|xs| - 1];
    if y in Clean(init) {
      CleanSound(init, y);
      var i :| 0 <= i < |init| && Strip(init[i]) == y;
      assert xs[i] == init[i];
    } else {
      assert y in CleanLine(x);
    }
  }

  /** Every non-blank entry survives the clean-up, stripped. */
  lemma {:induction false} CleanComplete(xs: seq<string>, i: int)
    requires 0 <= i < |xs| && Strip(xs[i]) != []
    ensures Strip(xs[i]) in Clean(xs)
  {
    var init := xs[..|xs| - 1];
    if i < |xs| - 1 {
      assert init[i] == xs[i];
      CleanComplete(init, i);
    } else {
      assert CleanLine(xs[i]) == [Strip(xs[i])];
    }
  }

  /** Every non-blank entry survives, stripped; every survivor comes from an entry. */
  lemma CleanMembers(xs: seq<string>, y: string)
    ensures y in Clean(xs) <==> y != [] && exists i | 0 <= i < |xs| :: Strip(xs[i]) == y
  {
    if y in Clean(xs) {
      CleanSound(xs, y);
    }
    if y != [] && exists i | 0 <= i < |xs| :: Strip(xs[i]) == y {
      var i :| 0 <= i < |xs| && Strip(xs[i]) == y;
      CleanComplete(xs, i);
    }
  }

  /** A clean entry is its own strip. */
  lemma StripClean(x: string)
    requires IsClean(x)
    ensures Strip(x) == x
  {
    assert RStrip(x) == x;
  }

  /** Entries that are already clean pass through unchanged. */
  lemma {:induction false} CleanOfClean(xs: seq<string>)
    requires forall i | 0 <= i < |xs| :: IsClean(xs[i])
    ensures Clean(xs) == xs
  {
    if xs != [] {
      var init, x := xs[..|xs| - 1], xs[|xs| - 1];
      forall i | 0 <= i < |init| ensures IsClean(init[i]) {
        assert init[i] == xs[i];
      }
      CleanOfClean(init);
      StripClean(x);
      assert CleanLine(x) == [x];
      assert Clean(xs) == Clean(init) + CleanLine(x);
      assert init + [x] == xs;
    }
  }

  /** Cleaning twice is cleaning once. */
  lemma CleanIdempotent(xs: seq<string>)
    ensures Clean(Clean(xs)) == Clean(xs)
  {
    CleanOfClean(Clean(xs));
  }

  predicate IsInfixAt(hay: string, needle: string, i: int)
    requires 0 <= i <= |hay| - |needle|
  {
    hay[i..i + |needle|] == needle
  }

  /** Python's `needle in hay` on strings: a contiguous occurrence. */
  predicate Contains(hay: string, needle: string) {
    exists i | 0 <= i <= |hay| - |needle| :: IsInfixAt(hay, needle, i)
  }

  predicate IsDigit(c: char) {
    '0' <= c <= '9'
  }

  /** `s.isdigit()` on ASCII text: non-empty and every character a digit. */
  predicate IsDigits(s: string) {
    |s| > 0 && forall k | 0 <= k < |s| :: IsDigit(s[k])
  }

  function DigitValue(c: char): (v: nat)
    requires IsDigit(c)
    ensures v < 10
  {
    c as int - '0' as int
  }

  /** `int(s)` on a string of decimal digits. */
  function ParseNat(s: string): (n: nat)
    requires forall k | 0 <= k < |s| :: IsDigit(s[k])
    ensures |s| > 0 && s[0] != '0' ==> n > 0
  {
    if s == [] then 0
    else
      assert |s| > 1 ==> s[..|s| - 1][0] == s[0];
      10 * ParseNat(s[..|s| - 1]) + DigitValue(s[|s| - 1])
  }

  /** `str(n)` for a non-negative integer. */
  function NatToString(n: nat): (r: string)
    ensures IsDigits(r)
    ensures ParseNat(r) == n
    ensures |r| == 1 <==> n < 10
    ensures r[0] == '0' ==> n == 0
  {
    var d := ['0' + (n % 10) as char];
    if n < 10 then d
    else
      var r := NatToString(n / 10) + d;
      assert r[..|r| - 1] == NatToString(n / 10);
      r
  }

  /** `f"{n:02}"`: at least two digits, zero-padded on the left. */
  function Pad2(n: nat): (r: string)
    ensures IsDigits(r) && ParseNat(r) == n
    ensures |r| >= 2
    ensures n < 100 ==> |r| == 2
  {
    if n < 10 then
      var r := "0" + NatToString(n);
      assert r[..1] == "0";
      r
    else NatToString(n)
  }
}
