/**
 * `reformat_data`: the assembler's normalisation of a source text into
 * lines. The text is lower-cased, whitespace around ',' and ':' is collapsed,
 * the text is split at '\n' and ';', every piece is trimmed in place, and
 * `std::remove_if` moves the non-empty pieces to the front. The result of
 * `remove_if` is discarded, so the vector keeps its length; its tail holds
 * the moved-from strings, which are empty in libstdc++.
 */
module Reformat {
  import opened Text

  /** The non-empty strings of `xs`, in order. */
  function NonEmpty(xs: seq<string>): (r: seq<string>)
    ensures |r| <= |xs|
    ensures forall k :: 0 <= k < |r| ==> r[k] != [] && r[k] in xs
    decreases |xs|
  {
    if xs == [] then []
    else
      var init := xs[..|xs| - 1];
      var last := xs[|xs| - 1];
      assert forall x :: x in init ==> x in xs;
      NonEmpty(init) + (if last == [] then [] else [last])
  }

  function Blanks(n: nat): (r: seq<string>)
    ensures |r| == n && forall k :: 0 <= k < n ==> r[k] == []
  {
    seq(n, _ => [])
  }

  /** What the vector holds after `remove_if` without `erase`: the non-empty
      strings in their order, then as many empty ones as were dropped. */
  function Compacted(xs: seq<string>): (r: seq<string>)
    ensures |r| == |xs|
    ensures forall k :: 0 <= k < |r| && r[k] != [] ==> r[k] in xs
  {
    NonEmpty(xs) + Blanks(|xs| - |NonEmpty(xs)|)
  }

  lemma NonEmptyStep(xs: seq<string>, i: nat)
    requires i < |xs|
    ensures NonEmpty(xs[..i + 1]) == NonEmpty(xs[..i]) + (if xs[i] == [] then [] else [xs[i]])
  {
    assert xs[..i + 1][..i] == xs[..i];
  }

  lemma {:induction false} NonEmptyAll(xs: seq<string>)
    requires forall k :: 0 <= k < |xs| ==> xs[k] != []
    ensures NonEmpty(xs) == xs
    decreases |xs|
  {
    if xs != [] {
      var init := xs[..|xs| - 1];
      assert forall k :: 0 <= k < |init| ==> init[k] == xs[k];
      NonEmptyAll(init);
      assert xs == init + [xs[|xs| - 1]];
    }
  }

  /** Before the first empty string nothing moves; the empty string found
      there starts the free slots. */
  lemma CompactingStart(original: seq<string>, first: nat)
    requires first <= |original|
    requires forall k :: 0 <= k < first ==> original[k] != []
    requires first < |original| ==> original[first] == []
    ensures Compacting(original, original, first, first)
    ensures first < |original| ==> Compacting(original, original, first, first + 1)
  {
    NonEmptyAll(original[..first]);
    if first < |original| {
      NonEmptyStep(original, first);
    }
  }

  /** Once every string has been visited, the array is `Compacted`. */
  lemma CompactingDone(current: seq<string>, original: seq<string>, kept: nat)
    requires Compacting(current, original, kept, |original|)
    ensures kept == |NonEmpty(original)| && current == Compacted(original)
  {
    assert original[..|original|] == original;
    assert current[kept..] == Blanks(|current| - kept);
    assert current == current[..kept] + current[kept..];
  }

  /** `std::find_if(begin, end, empty)`. */
  method FindEmpty(a: array<string>) returns (first: nat)
    ensures first <= a.Length
    ensures forall k :: 0 <= k < first ==> a[k] != []
    ensures first < a.Length ==> a[first] == []
  {
    first := 0;
    while first < a.Length && a[first] != []
      invariant first <= a.Length
      invariant forall k :: 0 <= k < first ==> a[k] != []
    {
      first := first + 1;
    }
  }

  /**
   * `std::remove_if(begin, end, empty)` as libstdc++ implements it: find the
   * first empty string, then move every later non-empty string down to the
   * next free slot, leaving an empty string behind. Returns the new logical
   * end.
   */
  method RemoveEmpty(a: array<string>) returns (kept: nat)
    modifies a
    ensures kept == |NonEmpty(old(a[..]))|
    ensures a[..] == Compacted(old(a[..]))
  {
    ghost var original := a[..];
    var first := FindEmpty(a);
    kept := first;
    CompactingStart(original, first);
    if first == a.Length {
      CompactingDone(a[..], original, kept);
      return;
    }
    var i := first + 1;
    while i < a.Length
      invariant kept < i <= a.Length
      invariant Compacting(a[..], original, kept, i)
    {
      kept := MoveDown(a, original, kept, i);
      i := i + 1;
    }
    CompactingDone(a[..], original, kept);
  }

  /** The state of `remove_if` after `i` strings: the first `kept` slots hold
      the non-empty strings among them, the slots from `kept` to `i` are
      empty, and the rest is untouched. */
  ghost predicate Compacting(current: seq<string>, original: seq<string>, kept: nat, i: nat) {
    && |current| == |original| && kept <= i <= |current|
    && current[..kept] == NonEmpty(original[..i])
    && (forall k :: kept <= k < i ==> current[k] == [])
    && (forall k :: i <= k < |current| ==> current[k] == original[k])
  }

  /** One step of `remove_if`: a non-empty string at `i` moves to slot
      `kept`, leaving an empty string behind. */
  method MoveDown(a: array<string>, ghost original: seq<string>, kept: nat, i: nat) returns (next: nat)
    requires kept < i < a.Length && Compacting(a[..], original, kept, i)
    modifies a
    ensures next <= kept + 1 && Compacting(a[..], original, next, i + 1)
  {
    NonEmptyStep(original, i);
    next := kept;
    if a[i] != [] {
      ghost var before := a[..kept];
      a[kept] := a[i];
      a[i] := [];
      assert a[..kept + 1] == before + [original[i]];
      next := kept + 1;
    }
  }

  /** The text before it is split into lines. */
  function Normalised(content: string): string {
    Collapse(Collapse(ToLower(content), ','), ':')
  }

  function Pieces(content: string): seq<string> {
    Split(Normalised(content), "\n;")
  }

  function TrimAll(pieces: seq<string>): (r: seq<string>)
    ensures |r| == |pieces|
  {
    seq(|pieces|, i requires 0 <= i < |pieces| => Trim(pieces[i]))
  }

  /** The lines `reformat_data` returns. */
  function Lines(content: string): seq<string> {
    Compacted(TrimAll(Pieces(content)))
  }

  /** The loop of `reformat_data` that trims every line in place. */
  method TrimEach(a: array<string>)
    modifies a
    ensures a[..] == TrimAll(old(a[..]))
  {
    for i := 0 to a.Length
      invariant forall k :: 0 <= k < i ==> a[k] == Trim(old(a[k]))
      invariant forall k :: i <= k < a.Length ==> a[k] == old(a[k])
    {
      a[i] := Trim(a[i]);
    }
  }

  /** `reformat_data`. */
  method ReformatData(content: string) returns (lines: seq<string>)
    ensures lines == Lines(content)
  {
    var text := ToLower(content);
    text := Collapse(text, ',');
    text := Collapse(text, ':');
    var pieces := Split(text, "\n;");
    var a := new string[|pieces|](i requires 0 <= i < |pieces| => pieces[i]);
    assert a[..] == Pieces(content);
    TrimEach(a);
    var _ := RemoveEmpty(a);
    lines := a[..];
  }

  /** What every returned line satisfies. */
  predicate CleanLine(line: string) {
    && NoUpper(line)
    && Tight(line, ',') && Tight(line, ':')
    && '\n' !in line && ';' !in line
    && (line != [] ==> !IsSpace(line[0]) && !IsSpace(line[|line| - 1]))
  }

  lemma CharsKeepNoUpper(s: string, t: string)
    requires NoUpper(s) && forall ch :: ch in t ==> ch in s
    ensures NoUpper(t)
  {
  }

  lemma SliceChars(s: string, i: nat, j: nat)
    requires i <= j <= |s|
    ensures forall ch :: ch in s[i..j] ==> ch in s
  {
    forall ch | ch in s[i..j] ensures ch in s {
      var k :| 0 <= k < |s[i..j]| && s[i..j][k] == ch;
      assert s[i + k] == ch;
    }
  }

  /** The normalised text has no upper case letter and no whitespace next to
      ',' or ':'. */
  lemma NormalisedClean(content: string)
    ensures NoUpper(Normalised(content))
    ensures Tight(Normalised(content), ',') && Tight(Normalised(content), ':')
  {
    var t0 := ToLower(content);
    var t1 := Collapse(t0, ',');
    CharsKeepNoUpper(t0, t1);
    CollapseKeepsTight(t1, ':', ',');
    CharsKeepNoUpper(t1, Collapse(t1, ':'));
  }

  /** A piece of the normalised text keeps its properties and has no
      separator. */
  lemma PieceFacts(content: string, k: nat)
    requires k < |Pieces(content)|
    ensures var p := Pieces(content)[k];
            NoUpper(p) && Tight(p, ',') && Tight(p, ':') && '\n' !in p && ';' !in p
  {
    var text := Normalised(content);
    NormalisedClean(content);
    SplitKeepsTight(text, "\n;", ',');
    SplitKeepsTight(text, "\n;", ':');
    SplitShape(text, "\n;");
    var p := Pieces(content)[k];
    assert forall ch :: ch in p ==> ch in text && ch !in "\n;";
    CharsKeepNoUpper(text, p);
  }

  /** Trimming keeps the properties of a piece and adds clean ends. */
  lemma TrimmedClean(p: string)
    requires NoUpper(p) && Tight(p, ',') && Tight(p, ':') && '\n' !in p && ';' !in p
    ensures CleanLine(Trim(p))
  {
    var r := Trim(p);
    var b := LeadingSpaces(p);
    SliceChars(p, b, b + |r|);
    TightSlice(p, b, b + |r|, ',');
    TightSlice(p, b, b + |r|, ':');
    CharsKeepNoUpper(p, r);
  }

  /** A trimmed piece of the normalised text is a clean line. */
  lemma PieceClean(content: string, k: nat)
    requires k < |Pieces(content)|
    ensures CleanLine(Trim(Pieces(content)[k]))
  {
    PieceFacts(content, k);
    TrimmedClean(Pieces(content)[k]);
  }

  lemma EmptyLineClean()
    ensures CleanLine([])
  {
  }

  /** Every trimmed piece is a clean line. */
  lemma TrimmedPiecesClean(content: string)
    ensures forall j :: 0 <= j < |TrimAll(Pieces(content))| ==> CleanLine(TrimAll(Pieces(content))[j])
  {
    forall j | 0 <= j < |TrimAll(Pieces(content))| ensures CleanLine(TrimAll(Pieces(content))[j]) {
      PieceClean(content, j);
    }
  }

  /** Compacting clean lines gives clean lines: it only moves them and adds
      empty ones. */
  lemma CompactedClean(xs: seq<string>)
    requires forall j :: 0 <= j < |xs| ==> CleanLine(xs[j])
    ensures forall k :: 0 <= k < |Compacted(xs)| ==> CleanLine(Compacted(xs)[k])
  {
    EmptyLineClean();
    forall k | 0 <= k < |Compacted(xs)| ensures CleanLine(Compacted(xs)[k]) {
      var line := Compacted(xs)[k];
      if line != [] {
        var j :| 0 <= j < |xs| && xs[j] == line;
      }
    }
  }

  /** After `reformat_data`, every line is lower case, has no whitespace next
      to ',' or ':', contains no '\n' or ';', and has no whitespace at
      either end. */
  lemma LinesClean(content: string)
    ensures forall k :: 0 <= k < |Lines(content)| ==> CleanLine(Lines(content)[k])
  {
    TrimmedPiecesClean(content);
    CompactedClean(TrimAll(Pieces(content)));
  }

  /** The returned vector has one entry per piece of the '\n'/';' split: the
      entries `remove_if` dropped are still there, as empty strings at the end. */
  lemma LinesCount(content: string)
    ensures |Lines(content)| == |Pieces(content)|
    ensures var n := |NonEmpty(TrimAll(Pieces(content)))|;
            forall k :: n <= k < |Lines(content)| ==> Lines(content)[k] == []
  {
  }
}
