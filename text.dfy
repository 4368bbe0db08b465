/** Character and string operations the assembler takes from the C library,
    `std::regex` and Boost.StringAlgo, written out with the same effect:
    `::tolower`, `isspace`, `regex_replace` of `\s*X\s*` and of the bracket
    patterns, `boost::split` with `is_any_of`, and `boost::trim`. */
module Text {

  /** The characters `isspace` (and the regex class `\s`) accept in the C locale. */
  const WHITESPACE: string := " \t\n\U{000B}\U{000C}\r"

  predicate IsSpace(c: char) {
    c in WHITESPACE
  }

  predicate IsUpper(c: char) {
    'A' <= c <= 'Z'
  }

  predicate NoUpper(s: string) {
    forall ch :: ch in s ==> !IsUpper(ch)
  }

  predicate AllSpace(s: string) {
    forall i :: 0 <= i < |s| ==> IsSpace(s[i])
  }

  /** `::tolower` in the C locale: only 'A'..'Z' change. */
  function Lower(c: char): (l: char)
    ensures !IsUpper(l)
    ensures IsUpper(c) ==> l as int == c as int + 32
    ensures !IsUpper(c) ==> l == c
  {
    if IsUpper(c) then (c as int + 32) as char else c
  }

  /** `std::transform(..., ::tolower)` over the whole text. */
  function ToLower(s: string): (r: string)
    ensures |r| == |s| && NoUpper(r)
    ensures forall i :: 0 <= i < |s| && !IsUpper(s[i]) ==> r[i] == s[i]
  {
    seq(|s|, i requires 0 <= i < |s| => Lower(s[i]))
  }

  /** `s` with every character of `drop` removed, order kept. */
  function Without(s: string, drop: string): (r: string)
    ensures |r| <= |s|
  {
    if s == [] then []
    else if s[0] in drop then Without(s[1..], drop)
    else [s[0]] + Without(s[1..], drop)
  }

  lemma {:induction false} WithoutConcat(a: string, b: string, drop: string)
    ensures Without(a + b, drop) == Without(a, drop) + Without(b, drop)
  {
    if a != [] {
      assert (a + b)[1..] == a[1..] + b;
      WithoutConcat(a[1..], b, drop);
    } else {
      assert a + b == b;
    }
  }

  lemma {:induction false} WithoutAllSpace(s: string)
    requires AllSpace(s)
    ensures Without(s, WHITESPACE) == []
  {
    if s != [] {
      WithoutAllSpace(s[1..]);
    }
  }

  /** Nothing but whitespace is taken out when `t` is obtained from `s`. */
  predicate SameNonSpace(s: string, t: string) {
    Without(s, WHITESPACE) == Without(t, WHITESPACE)
  }

  /** Number of leading whitespace characters (what `trim_left` removes). */
  function LeadingSpaces(s: string): (n: nat)
    ensures n <= |s| && AllSpace(s[..n])
    ensures n < |s| ==> !IsSpace(s[n])
  {
    if s != [] && IsSpace(s[0]) then 1 + LeadingSpaces(s[1..]) else 0
  }

  /** Length left after removing trailing whitespace (what `trim_right` keeps). */
  function TrailingStart(s: string): (n: nat)
    ensures n <= |s| && AllSpace(s[n..])
    ensures n > 0 ==> !IsSpace(s[n - 1])
  {
    if s != [] && IsSpace(s[|s| - 1]) then TrailingStart(s[..|s| - 1]) else |s|
  }

  lemma SpacesThenRest(s: string, n: nat)
    requires n <= |s| && AllSpace(s[..n])
    ensures SameNonSpace(s, s[n..])
  {
    assert s == s[..n] + s[n..];
    WithoutConcat(s[..n], s[n..], WHITESPACE);
    WithoutAllSpace(s[..n]);
  }

  lemma RestThenSpaces(s: string, n: nat)
    requires n <= |s| && AllSpace(s[n..])
    ensures SameNonSpace(s, s[..n])
  {
    assert s == s[..n] + s[n..];
    WithoutConcat(s[..n], s[n..], WHITESPACE);
    WithoutAllSpace(s[n..]);
  }

  /** `boost::algorithm::trim`: removes leading and trailing whitespace. */
  function Trim(s: string): (r: string)
    ensures |r| > 0 ==> !IsSpace(r[0]) && !IsSpace(r[|r| - 1])
    ensures r == [] <==> AllSpace(s)
    ensures LeadingSpaces(s) + |r| <= |s| && r == s[LeadingSpaces(s)..LeadingSpaces(s) + |r|]
  {
    var b := LeadingSpaces(s);
    var t := s[b..];
    var e := TrailingStart(t);
    assert AllSpace(t) ==> e == 0;
    assert t == [] ==> AllSpace(s) by { assert s == s[..b] + t; }
    t[..e]
  }

  /** Trimming removes whitespace and nothing else. */
  lemma TrimKeepsText(s: string)
    ensures SameNonSpace(Trim(s), s)
  {
    var b := LeadingSpaces(s);
    var t := s[b..];
    SpacesThenRest(s, b);
    RestThenSpaces(t, TrailingStart(t));
  }

  /** No whitespace character stands right next to `c`. */
  predicate Tight(s: string, c: char) {
    forall i :: 0 <= i < |s| - 1 ==> !(s[i] == c && IsSpace(s[i + 1])) && !(IsSpace(s[i]) && s[i + 1] == c)
  }

  lemma TightSlice(s: string, i: nat, j: nat, c: char)
    requires i <= j <= |s| && Tight(s, c)
    ensures Tight(s[i..j], c)
  {
    var t := s[i..j];
    forall k | 0 <= k < |t| - 1
      ensures !(t[k] == c && IsSpace(t[k + 1])) && !(IsSpace(t[k]) && t[k + 1] == c)
    {
      assert t[k] == s[i + k] && t[k + 1] == s[i + k + 1];
    }
  }

  lemma TightConcat(a: string, b: string, c: char)
    requires Tight(a, c) && Tight(b, c)
    requires a != [] && b != [] ==> !(a[|a| - 1] == c && IsSpace(b[0])) && !(IsSpace(a[|a| - 1]) && b[0] == c)
    ensures Tight(a + b, c)
  {
    var s := a + b;
    forall k | 0 <= k < |s| - 1
      ensures !(s[k] == c && IsSpace(s[k + 1])) && !(IsSpace(s[k]) && s[k + 1] == c)
    {
      if k + 1 < |a| {
        assert s[k] == a[k] && s[k + 1] == a[k + 1];
      } else if k >= |a| {
        assert s[k] == b[k - |a|] && s[k + 1] == b[k + 1 - |a|];
      }
    }
  }

  lemma SpacesTight(s: string, c: char)
    requires AllSpace(s) && !IsSpace(c)
    ensures Tight(s, c)
  {
  }

  /** `std::regex_replace(s, std::regex("\\s*C\\s*"), "C")`: every occurrence
      of `c` swallows the whitespace run before it and the one after it; a
      whitespace run that touches no `c` is kept. */
  function Collapse(s: string, c: char): (r: string)
    requires !IsSpace(c)
    ensures Tight(r, c)
    ensures SameNonSpace(r, s)
    ensures forall ch :: ch in r ==> ch in s
    ensures s != [] ==> r != [] && (r[0] == s[0] || (IsSpace(s[0]) && r[0] == c))
    decreases |s|, 1
  {
    if s == [] then []
    else if IsSpace(s[0]) then
      var n := LeadingSpaces(s);
      if n < |s| && s[n] == c then CollapseAfter(s, n + 1, c)
      else KeepSpaces(s, n, c)
    else if s[0] == c then CollapseAfter(s, 1, c)
    else KeepChar(s, c)
  }

  /** The step for a whitespace run of length `n` that no `c` follows: keep
      it. */
  function KeepSpaces(s: string, n: nat, c: char): (r: string)
    requires !IsSpace(c) && 0 < n <= |s| && AllSpace(s[..n]) && (n < |s| ==> !IsSpace(s[n]) && s[n] != c)
    ensures Tight(r, c)
    ensures SameNonSpace(r, s)
    ensures forall ch :: ch in r ==> ch in s
    ensures r != [] && r[0] == s[0]
    decreases |s|, 0
  {
    SpacesThenRest(s, n);
    var rest := Collapse(s[n..], c);
    SpacesTight(s[..n], c);
    TightConcat(s[..n], rest, c);
    WithoutConcat(s[..n], rest, WHITESPACE);
    WithoutAllSpace(s[..n]);
    assert forall ch :: ch in s[..n] ==> ch in s;
    s[..n] + rest
  }

  /** The step for a character that is neither whitespace nor `c`: keep it. */
  function KeepChar(s: string, c: char): (r: string)
    requires !IsSpace(c) && s != [] && !IsSpace(s[0]) && s[0] != c
    ensures Tight(r, c)
    ensures SameNonSpace(r, s)
    ensures forall ch :: ch in r ==> ch in s
    ensures r != [] && r[0] == s[0]
    decreases |s|, 0
  {
    var rest := Collapse(s[1..], c);
    TightConcat([s[0]], rest, c);
    WithoutConcat([s[0]], rest, WHITESPACE);
    assert s == [s[0]] + s[1..];
    WithoutConcat([s[0]], s[1..], WHITESPACE);
    [s[0]] + rest
  }

  /** The step for a `c` at position `k - 1` of `s`, preceded only by
      whitespace: emit `c`, then skip the whitespace after it. */
  function CollapseAfter(s: string, k: nat, c: char): (r: string)
    requires !IsSpace(c) && 0 < k <= |s| && s[k - 1] == c && AllSpace(s[..k - 1])
    ensures Tight(r, c)
    ensures SameNonSpace(r, s)
    ensures forall ch :: ch in r ==> ch in s
    ensures r != [] && r[0] == c
    decreases |s|, 0
  {
    var m := LeadingSpaces(s[k..]);
    var rest := Collapse(s[k + m..], c);
    assert s[k..][m..] == s[k + m..] && s[k..][..m] == s[k..k + m];
    TightConcat([c], rest, c);
    CollapsedPrefix(s, k, m, c);
    WithoutConcat([c], rest, WHITESPACE);
    SuffixChars(s, k + m);
    [c] + rest
  }

  /** Text that holds no `c` and does not end in whitespace passes through
      `Collapse` unchanged, whitespace included, whatever follows it. */
  lemma {:induction false} CollapseKeepsPrefix(a: string, b: string, c: char)
    requires !IsSpace(c) && c !in a && (a != [] ==> !IsSpace(a[|a| - 1]))
    ensures Collapse(a + b, c) == a + Collapse(b, c)
    decreases |a|
  {
    if a == [] {
      assert a + b == b;
    } else if IsSpace(a[0]) {
      assert (a + b)[|a| - 1] == a[|a| - 1];
      RunEndsBefore(a + b, |a| - 1);
      var n := LeadingSpaces(a + b);
      AbsentFromSuffix(a, n, c);
      CollapseKeepsPrefix(a[n..], b, c);
      KeptSpacesStep(a, b, n, c);
    } else {
      AbsentFromSuffix(a, 1, c);
      CollapseKeepsPrefix(a[1..], b, c);
      KeptCharStep(a, b, c);
    }
  }

  /** `Collapse` keeps a leading whitespace run that neither `c` nor the end
      of the text follows. */
  lemma CollapseKeepsSpaceRun(s: string, c: char)
    requires !IsSpace(c) && s != [] && IsSpace(s[0])
    requires LeadingSpaces(s) < |s| && s[LeadingSpaces(s)] != c
    ensures var n := LeadingSpaces(s); Collapse(s, c) == s[..n] + Collapse(s[n..], c)
  {
    assert Collapse(s, c) == KeepSpaces(s, LeadingSpaces(s), c);
  }

  /** `Collapse` keeps a first character that is neither whitespace nor `c`. */
  lemma CollapseKeepsChar(s: string, c: char)
    requires !IsSpace(c) && s != [] && !IsSpace(s[0]) && s[0] != c
    ensures Collapse(s, c) == [s[0]] + Collapse(s[1..], c)
  {
    assert Collapse(s, c) == KeepChar(s, c);
  }

  /** One step of `CollapseKeepsPrefix`: a leading whitespace run of `a` that
      is followed by neither whitespace nor `c` is kept. */
  lemma KeptSpacesStep(a: string, b: string, n: nat, c: char)
    requires !IsSpace(c) && 0 < n < |a| && c !in a && IsSpace(a[0])
    requires n == LeadingSpaces(a + b)
    requires Collapse(a[n..] + b, c) == a[n..] + Collapse(b, c)
    ensures Collapse(a + b, c) == a + Collapse(b, c)
  {
    SlicesOfConcat(a, b, n);
    assert (a + b)[n] == a[n];
    CollapseKeepsSpaceRun(a + b, c);
    Regroup(a[..n], a[n..], Collapse(b, c));
  }

  /** One step of `CollapseKeepsPrefix`: a first character that is neither
      whitespace nor `c` is kept. */
  lemma KeptCharStep(a: string, b: string, c: char)
    requires !IsSpace(c) && a != [] && !IsSpace(a[0]) && a[0] != c
    requires Collapse(a[1..] + b, c) == a[1..] + Collapse(b, c)
    ensures Collapse(a + b, c) == a + Collapse(b, c)
  {
    SlicesOfConcat(a, b, 1);
    assert [(a + b)[0]] == a[..1];
    CollapseKeepsChar(a + b, c);
    Regroup(a[..1], a[1..], Collapse(b, c));
  }

  lemma SlicesOfConcat(a: string, b: string, k: nat)
    requires k <= |a|
    ensures (a + b)[..k] == a[..k] && (a + b)[k..] == a[k..] + b && a[..k] + a[k..] == a
  {
  }

  lemma Regroup(p: string, q: string, r: string)
    ensures p + (q + r) == (p + q) + r
  {
  }

  /** A leading whitespace run ends at the first character that is not
      whitespace. */
  lemma {:induction false} RunEndsBefore(s: string, k: nat)
    requires k < |s| && !IsSpace(s[k])
    ensures LeadingSpaces(s) <= k
  {
    if IsSpace(s[0]) {
      assert s[1..][k - 1] == s[k];
      RunEndsBefore(s[1..], k - 1);
    }
  }

  lemma AbsentFromSuffix(a: string, k: nat, c: char)
    requires k <= |a| && c !in a
    ensures c !in a[k..] && (k < |a| ==> a[k..][|a[k..]| - 1] == a[|a| - 1])
  {
  }

  /** A whitespace run with nothing after it is kept. */
  lemma CollapseKeepsSpaces(t: string, c: char)
    requires !IsSpace(c) && AllSpace(t)
    ensures Collapse(t, c) == t
  {
    if t != [] {
      assert LeadingSpaces(t) == |t|;
      assert t[..|t|] == t && t[|t|..] == [];
      assert Collapse(t, c) == KeepSpaces(t, |t|, c) == t[..|t|] + Collapse(t[|t|..], c);
    }
  }

  /** Text that holds no `c` is left as it is: whitespace away from every `c`
      is kept. */
  lemma CollapseWithoutSeparator(s: string, c: char)
    requires !IsSpace(c) && c !in s
    ensures Collapse(s, c) == s
  {
    var n := TrailingStart(s);
    var a, t := s[..n], s[n..];
    CutWithout(s, n, c);
    CollapseKeepsPrefix(a, t, c);
    CollapseKeepsSpaces(t, c);
  }

  lemma CutWithout(s: string, n: nat, c: char)
    requires n <= |s| && c !in s
    ensures s[..n] + s[n..] == s && c !in s[..n] && (n > 0 ==> s[..n][n - 1] == s[n - 1])
  {
  }

  lemma SuffixChars(s: string, k: nat)
    requires k <= |s|
    ensures forall ch :: ch in s[k..] ==> ch in s
  {
    forall ch | ch in s[k..] ensures ch in s {
      var i :| 0 <= i < |s[k..]| && s[k..][i] == ch;
      assert s[k + i] == ch;
    }
  }

  /** Whitespace, then `c` at `k - 1`, then `m` more whitespace characters:
      only `c` survives the removal of whitespace. */
  lemma CollapsedPrefix(s: string, k: nat, m: nat, c: char)
    requires !IsSpace(c) && 0 < k && k + m <= |s| && s[k - 1] == c
    requires AllSpace(s[..k - 1]) && AllSpace(s[k..k + m])
    ensures Without(s, WHITESPACE) == [c] + Without(s[k + m..], WHITESPACE)
  {
    SpacesThenRest(s, k - 1);
    var t := s[k - 1..];
    assert t[0] == c && t[1..] == s[k..];
    assert Without(t, WHITESPACE) == [c] + Without(s[k..], WHITESPACE);
    assert s[k..][..m] == s[k..k + m] && s[k..][m..] == s[k + m..];
    SpacesThenRest(s[k..], m);
  }

  /** Collapsing around `c` keeps another non-space character `d` tight:
      this is why the two passes of `reformat_data` can run one after the other. */
  lemma {:induction false} CollapseKeepsTight(s: string, c: char, d: char)
    requires !IsSpace(c) && !IsSpace(d) && c != d && Tight(s, d)
    ensures Tight(Collapse(s, c), d)
    decreases |s|
  {
    if s == [] {
    } else if IsSpace(s[0]) {
      var n := LeadingSpaces(s);
      if n < |s| && s[n] == c {
        CollapseAfterKeepsTight(s, n + 1, c, d);
      } else {
        TightSlice(s, n, |s|, d);
        CollapseKeepsTight(s[n..], c, d);
        var rest := Collapse(s[n..], c);
        SpacesTight(s[..n], d);
        if n < |s| {
          assert rest[0] == s[n];
          assert !(IsSpace(s[n - 1]) && s[n] == d);
        }
        TightConcat(s[..n], rest, d);
      }
    } else if s[0] == c {
      CollapseAfterKeepsTight(s, 1, c, d);
    } else {
      TightSlice(s, 1, |s|, d);
      CollapseKeepsTight(s[1..], c, d);
      var rest := Collapse(s[1..], c);
      if |s| > 1 {
        assert !(s[0] == d && IsSpace(s[1]));
      }
      TightConcat([s[0]], rest, d);
    }
  }

  lemma {:induction false} CollapseAfterKeepsTight(s: string, k: nat, c: char, d: char)
    requires !IsSpace(c) && 0 < k <= |s| && s[k - 1] == c && AllSpace(s[..k - 1])
    requires !IsSpace(d) && c != d && Tight(s, d)
    ensures Tight(CollapseAfter(s, k, c), d)
    decreases |s|, 0
  {
    var m := LeadingSpaces(s[k..]);
    assert s[k..][m..] == s[k + m..];
    TightSlice(s, k + m, |s|, d);
    CollapseKeepsTight(s[k + m..], c, d);
    TightConcat([c], Collapse(s[k + m..], c), d);
  }

  /** The pieces joined back together. */
  function Concat(pieces: seq<string>): string {
    if pieces == [] then [] else pieces[0] + Concat(pieces[1..])
  }

  /** `boost::split(out, s, boost::is_any_of(seps))` without token compression:
      adjacent separators give empty pieces. */
  function Split(s: string, seps: string): (r: seq<string>)
    ensures |r| >= 1
    decreases |s|
  {
    if s == [] then [[]]
    else
      var rest := Split(s[1..], seps);
      if s[0] in seps then [[]] + rest
      else [[s[0]] + rest[0]] + rest[1..]
  }

  /** There is one piece more than there are separators; the first piece is
      a prefix of `s`; every piece is made of characters of `s` that are not
      separators. */
  lemma {:induction false} SplitShape(s: string, seps: string)
    ensures var r := Split(s, seps);
            && |r| == |s| - |Without(s, seps)| + 1
            && |r[0]| <= |s| && r[0] == s[..|r[0]|]
            && forall k :: 0 <= k < |r| ==> forall ch :: ch in r[k] ==> ch in s && ch !in seps
    decreases |s|
  {
    if s != [] {
      SplitShape(s[1..], seps);
      var rest := Split(s[1..], seps);
      SuffixChars(s, 1);
      if s[0] in seps {
        SplitPieceChars(s, seps, [], rest);
      } else {
        assert s == [s[0]] + s[1..];
        SplitPieceChars(s, seps, [s[0]] + rest[0], rest[1..]);
      }
    }
  }

  lemma SplitPieceChars(s: string, seps: string, first: string, others: seq<string>)
    requires forall ch :: ch in first ==> ch in s && ch !in seps
    requires forall k :: 0 <= k < |others| ==> forall ch :: ch in others[k] ==> ch in s && ch !in seps
    ensures forall k :: 0 <= k < |[first] + others| ==> forall ch :: ch in ([first] + others)[k] ==> ch in s && ch !in seps
  {
    forall k | 0 <= k < |[first] + others|
      ensures forall ch :: ch in ([first] + others)[k] ==> ch in s && ch !in seps
    {
      if k > 0 {
        assert ([first] + others)[k] == others[k - 1];
      }
    }
  }

  /** Joining the pieces gives back `s` with the separators removed. */
  lemma {:induction false} SplitJoin(s: string, seps: string)
    ensures Concat(Split(s, seps)) == Without(s, seps)
    decreases |s|
  {
    if s != [] {
      SplitJoin(s[1..], seps);
      var rest := Split(s[1..], seps);
      if s[0] in seps {
        assert ([[]] + rest)[1..] == rest;
      } else {
        var r := [[s[0]] + rest[0]] + rest[1..];
        assert r[1..] == rest[1..];
        assert Concat(rest) == rest[0] + Concat(rest[1..]);
      }
    }
  }

  /** No character of `s` is one of `seps`. */
  predicate Avoids(s: string, seps: string) {
    forall i :: 0 <= i < |s| ==> s[i] !in seps
  }

  /** A string without separators is a single piece. */
  lemma {:induction false} SplitWhole(s: string, seps: string)
    requires Avoids(s, seps)
    ensures Split(s, seps) == [s]
    decreases |s|
  {
    if s != [] {
      SplitWhole(s[1..], seps);
      assert s == [s[0]] + s[1..];
    }
  }

  /** The first separator ends the first piece; the rest is split on its own. */
  lemma {:induction false} SplitFirst(a: string, c: char, b: string, seps: string)
    requires Avoids(a, seps) && c in seps
    ensures Split(a + [c] + b, seps) == [a] + Split(b, seps)
    decreases |a|
  {
    var s := a + [c] + b;
    if a == [] {
      assert s[1..] == b;
    } else {
      assert s[1..] == a[1..] + [c] + b;
      SplitFirst(a[1..], c, b, seps);
      assert [s[0]] + a[1..] == a;
    }
  }

  /** Splitting cuts `s` into slices, so a property of every adjacent pair survives. */
  lemma {:induction false} SplitKeepsTight(s: string, seps: string, c: char)
    requires Tight(s, c)
    ensures forall k :: 0 <= k < |Split(s, seps)| ==> Tight(Split(s, seps)[k], c)
    decreases |s|
  {
    if s != [] {
      TightSlice(s, 1, |s|, c);
      SplitKeepsTight(s[1..], seps, c);
      SplitShape(s[1..], seps);
      var rest := Split(s[1..], seps);
      if s[0] !in seps {
        TightSlice(s, 0, |rest[0]| + 1, c);
        assert [s[0]] + rest[0] == s[..|rest[0]| + 1] by {
          assert s == [s[0]] + s[1..];
        }
        var r := Split(s, seps);
        assert r[1..] == rest[1..];
        forall k | 0 <= k < |r| ensures Tight(r[k], c) {
          if k > 0 {
            assert r[k] == rest[k];
          }
        }
      } else {
        var r := Split(s, seps);
        forall k | 0 <= k < |r| ensures Tight(r[k], c) {
          if k > 0 {
            assert r[k] == rest[k - 1];
          }
        }
      }
    }
  }

  /** `regex_replace(s, std::regex("\\[\\s*"), "")`: every '[' goes, with the
      whitespace run that follows it. */
  function StripOpen(s: string): (r: string)
    ensures '[' !in r
    ensures forall ch :: ch in r ==> ch in s
    decreases |s|
  {
    if s == [] then []
    else if s[0] == '[' then
      var t := s[1..];
      SuffixChars(s, 1);
      SuffixChars(t, LeadingSpaces(t));
      StripOpen(t[LeadingSpaces(t)..])
    else
      SuffixChars(s, 1);
      [s[0]] + StripOpen(s[1..])
  }

  /** `regex_replace(s, std::regex("\\s*\\]"), "")`: every ']' goes, with the
      whitespace run that precedes it; other whitespace stays. */
  function StripClose(s: string): (r: string)
    ensures ']' !in r
    ensures forall ch :: ch in r ==> ch in s
    decreases |s|
  {
    if s == [] then []
    else if IsSpace(s[0]) then
      var n := LeadingSpaces(s);
      if n < |s| && s[n] == ']' then
        SuffixChars(s, n + 1);
        StripClose(s[n + 1..])
      else
        SuffixChars(s, n);
        assert forall ch :: ch in s[..n] ==> ch in s;
        s[..n] + StripClose(s[n..])
    else if s[0] == ']' then
      SuffixChars(s, 1);
      StripClose(s[1..])
    else
      SuffixChars(s, 1);
      [s[0]] + StripClose(s[1..])
  }
}
