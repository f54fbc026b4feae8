/**
 * The three Python string operations the resume page relies on:
 * `str.strip()`, `sep.join(items)` and `str.split(",")`.
 */
module PyText {
  import opened Chars

  /** Every character of `s` in `[lo, hi)` is whitespace. */
  ghost predicate SpaceBetween(s: string, lo: int, hi: int) {
    forall p :: lo <= p < hi && 0 <= p < |s| ==> IsSpace(s[p])
  }

  ghost predicate AllSpace(s: string) {
    SpaceBetween(s, 0, |s|)
  }

  /** Neither end of `s` is whitespace. */
  ghost predicate Trimmed(s: string) {
    s == [] || (!IsSpace(s[0]) && !IsSpace(s[|s| - 1]))
  }

  // ---------------------------------------------------------------------------
  // str.strip()
  // ---------------------------------------------------------------------------

  /** The first position at or after `i` that does not hold whitespace (or `|s|`). */
  function SkipSpaceFrom(s: string, i: nat): (n: nat)
    requires i <= |s|
    ensures i <= n <= |s|
    ensures SpaceBetween(s, i, n)
    ensures n == |s| || !IsSpace(s[n])
    decreases |s| - i
  {
    if i < |s| && IsSpace(s[i]) then SkipSpaceFrom(s, i + 1) else i
  }

  /** The end of `s[lo..j]` once whitespace at its back is dropped. */
  function SkipSpaceBack(s: string, lo: nat, j: nat): (m: nat)
    requires lo <= j <= |s|
    ensures lo <= m <= j
    ensures SpaceBetween(s, m, j)
    ensures m == lo || !IsSpace(s[m - 1])
  {
    if lo < j && IsSpace(s[j - 1]) then SkipSpaceBack(s, lo, j - 1) else j
  }

  /** `s.strip()`: the part of `s` left after removing whitespace at both ends. */
  function Strip(s: string): (r: string)
    ensures |r| <= |s| && Trimmed(r)
  {
    var i := SkipSpaceFrom(s, 0);
    s[i..SkipSpaceBack(s, i, |s|)]
  }

  /**
   * What `strip` removes is whitespace and nothing else: the result is a
   * slice of `s` with only whitespace on either side of it, and it is empty
   * exactly when `s` is all whitespace.
   */
  lemma StripRemovesPadding(s: string)
    ensures exists i, j :: 0 <= i <= j <= |s| && Strip(s) == s[i..j] && SpaceBetween(s, 0, i) && SpaceBetween(s, j, |s|)
    ensures Strip(s) == [] <==> AllSpace(s)
  {
    var i := SkipSpaceFrom(s, 0);
    var j := SkipSpaceBack(s, i, |s|);
    assert Strip(s) == s[i..j];
    if j == i {
      assert SpaceBetween(s, 0, |s|) by {
        forall p | 0 <= p < |s|
          ensures IsSpace(s[p])
        {
          if p >= i {
            assert j <= p;
          }
        }
      }
    }
  }

  /** Scanning forward stops at the first non-whitespace position, whatever lies beyond it. */
  lemma {:induction false} SkipSpaceFromAt(s: string, i: nat, n: nat)
    requires i <= n <= |s|
    requires SpaceBetween(s, i, n)
    requires n == |s| || !IsSpace(s[n])
    ensures SkipSpaceFrom(s, i) == n
    decreases n - i
  {
    if i < n {
      SkipSpaceFromAt(s, i + 1, n);
    }
  }

  /** Scanning backward stops at the last non-whitespace position above `lo`. */
  lemma {:induction false} SkipSpaceBackAt(s: string, lo: nat, j: nat, m: nat)
    requires lo <= m <= j <= |s|
    requires SpaceBetween(s, m, j)
    requires m == lo || !IsSpace(s[m - 1])
    ensures SkipSpaceBack(s, lo, j) == m
    decreases j - m
  {
    if m < j {
      SkipSpaceBackAt(s, lo, j - 1, m);
    }
  }

  /** Stripping undoes any whitespace padding around an already trimmed string. */
  lemma StripPadded(before: string, x: string, after: string)
    requires AllSpace(before) && AllSpace(after) && Trimmed(x)
    ensures Strip(before + x + after) == x
  {
    var s := before + x + after;
    var i := |before|;
    var j := |before| + |x|;
    assert SpaceBetween(s, 0, i) by {
      forall p | 0 <= p < i
        ensures IsSpace(s[p])
      {
        assert s[p] == before[p];
      }
    }
    assert SpaceBetween(s, j, |s|) by {
      forall p | j <= p < |s|
        ensures IsSpace(s[p])
      {
        assert s[p] == after[p - j];
      }
    }
    if x == [] {
      SkipSpaceFromAt(s, 0, |s|);
      SkipSpaceBackAt(s, |s|, |s|, |s|);
      assert s[|s|..|s|] == x;
    } else {
      assert s[i] == x[0];
      SkipSpaceFromAt(s, 0, i);
      assert s[j - 1] == x[|x| - 1];
      SkipSpaceBackAt(s, i, |s|, j);
      assert s[i..j] == x;
    }
  }

  /** A string without whitespace at either end is its own strip. */
  lemma StripTrimmed(x: string)
    requires Trimmed(x)
    ensures Strip(x) == x
  {
    var none: string := [];
    assert none + x + none == x;
    StripPadded(none, x, none);
  }

  /** Stripping twice changes nothing. */
  lemma StripIdempotent(s: string)
    ensures Strip(Strip(s)) == Strip(s)
  {
    StripTrimmed(Strip(s));
  }

  // ---------------------------------------------------------------------------
  // sep.join(items) and str.split(",")
  // ---------------------------------------------------------------------------

  /** `sep.join(items)`. */
  function Join(items: seq<string>, sep: string): (text: string)
    ensures items == [] ==> text == ""
  {
    if items == [] then ""
    else if |items| == 1 then items[0]
    else items[0] + sep + Join(items[1..], sep)
  }

  /** A join starts with the first item and ends with the last one. */
  lemma {:induction false} JoinEnds(items: seq<string>, sep: string)
    requires items != []
    ensures var text := Join(items, sep);
      && |items[0]| <= |text| && text[..|items[0]|] == items[0]
      && |items[|items| - 1]| <= |text| && text[|text| - |items[|items| - 1]|..] == items[|items| - 1]
  {
    if |items| > 1 {
      var rest := Join(items[1..], sep);
      JoinEnds(items[1..], sep);
      var text := items[0] + sep + rest;
      assert text[..|items[0]|] == items[0];
      assert text[|text| - |rest|..] == rest;
    }
  }

  function Count(s: string, c: char): nat {
    if s == [] then 0 else (if s[0] == c then 1 else 0) + Count(s[1..], c)
  }

  lemma {:induction false} CountAbsent(s: string, c: char)
    requires c !in s
    ensures Count(s, c) == 0
  {
    if s != [] {
      CountAbsent(s[1..], c);
    }
  }

  /**
   * `s.split(",")`: the pieces between commas, including empty ones; it always
   * has one piece more than `s` has commas, and joining with "," restores `s`.
   */
  function SplitCommas(s: string): (pieces: seq<string>)
    ensures |pieces| == Count(s, ',') + 1
    ensures forall k :: 0 <= k < |pieces| ==> ',' !in pieces[k]
    ensures Join(pieces, ",") == s
  {
    if s == [] then [""]
    else
      var rest := SplitCommas(s[1..]);
      if s[0] == ',' then
        assert s == "," + s[1..];
        [""] + rest
      else
        assert s == [s[0]] + s[1..];
        [[s[0]] + rest[0]] + rest[1..]
  }

  /** A comma-free string is a single piece. */
  lemma SplitCommaFree(s: string)
    requires ',' !in s
    ensures SplitCommas(s) == [s]
  {
    CountAbsent(s, ',');
  }

  /** Splitting after a comma-free first piece. */
  lemma {:induction false} SplitAfterPiece(a: string, b: string)
    requires ',' !in a
    ensures SplitCommas(a + "," + b) == [a] + SplitCommas(b)
  {
    if a == [] {
      assert a + "," + b == "," + b;
      assert ("," + b)[1..] == b;
    } else {
      assert (a + "," + b)[1..] == a[1..] + "," + b;
      SplitAfterPiece(a[1..], b);
      assert [a[0]] + a[1..] == a;
    }
  }

  /** A piece that does not start with a comma keeps its first character. */
  lemma SplitPrefixChar(c: char, b: string)
    requires c != ','
    ensures SplitCommas([c] + b) == [[c] + SplitCommas(b)[0]] + SplitCommas(b)[1..]
  {
    assert ([c] + b)[1..] == b;
  }

  /** The pieces of a `", "`-join: the first item, then every later item behind one space. */
  lemma {:induction false} SplitJoined(items: seq<string>)
    requires |items| >= 1
    requires forall k :: 0 <= k < |items| ==> ',' !in items[k]
    ensures var pieces := SplitCommas(Join(items, ", "));
      && |pieces| == |items|
      && pieces[0] == items[0]
      && forall k :: 1 <= k < |items| ==> pieces[k] == " " + items[k]
  {
    if |items| == 1 {
      SplitCommaFree(items[0]);
    } else {
      var tail := Join(items[1..], ", ");
      SplitJoined(items[1..]);
      assert Join(items, ", ") == items[0] + "," + (" " + tail);
      SplitAfterPiece(items[0], " " + tail);
      SplitPrefixChar(' ', tail);
    }
  }

  /** Python list comprehension `[p.strip() for p in text.split(",")]`. */
  function SplitAndStrip(text: string): (skills: seq<string>)
    ensures |skills| == Count(text, ',') + 1
  {
    var pieces := SplitCommas(text);
    seq(|pieces|, k requires 0 <= k < |pieces| => Strip(pieces[k]))
  }

  /** `str.split(",")` undoes a ","-join of comma-free pieces, so its pieces are the only such ones. */
  lemma {:induction false} SplitCommaJoin(pieces: seq<string>)
    requires |pieces| >= 1
    requires forall k :: 0 <= k < |pieces| ==> ',' !in pieces[k]
    ensures SplitCommas(Join(pieces, ",")) == pieces
  {
    if |pieces| == 1 {
      SplitCommaFree(pieces[0]);
    } else {
      SplitCommaJoin(pieces[1..]);
      SplitAfterPiece(pieces[0], Join(pieces[1..], ","));
      assert [pieces[0]] + pieces[1..] == pieces;
    }
  }

  /**
   * Skill `k` of any comma list is the strip of the `k`-th text between commas.
   * Every text is the ","-join of its own `SplitCommas`, so this covers every input.
   */
  lemma SplitAndStripOfCommaJoin(pieces: seq<string>)
    requires |pieces| >= 1
    requires forall k :: 0 <= k < |pieces| ==> ',' !in pieces[k]
    ensures var skills := SplitAndStrip(Join(pieces, ","));
      && |skills| == |pieces|
      && forall k :: 0 <= k < |pieces| ==> skills[k] == Strip(pieces[k])
  {
    SplitCommaJoin(pieces);
  }

  /** Every skill of the split is trimmed and holds no comma. */
  lemma SplitAndStripPieces(text: string)
    ensures forall k :: 0 <= k < |SplitAndStrip(text)| ==>
      Trimmed(SplitAndStrip(text)[k]) && ',' !in SplitAndStrip(text)[k]
  {
    var pieces := SplitCommas(text);
    forall k | 0 <= k < |pieces|
      ensures ',' !in Strip(pieces[k])
    {
      StripRemovesPadding(pieces[k]);
    }
  }

  /** Splitting the empty text gives one empty skill, not an empty list. */
  lemma SplitEmptyText()
    ensures SplitAndStrip("") == [""]
  {
    assert Strip("") == "";
  }

  /** Each piece of a `", "`-join strips back to its item. */
  lemma StripJoinedPiece(items: seq<string>, k: nat)
    requires k < |items|
    requires forall k :: 0 <= k < |items| ==> Trimmed(items[k]) && ',' !in items[k]
    ensures |SplitCommas(Join(items, ", "))| == |items|
    ensures Strip(SplitCommas(Join(items, ", "))[k]) == items[k]
  {
    SplitJoined(items);
    if k == 0 {
      StripTrimmed(items[0]);
    } else {
      StripPadded(" ", items[k], []);
      assert " " + items[k] + [] == " " + items[k];
    }
  }

  /** Round trip: split-and-strip gives back a non-empty list of trimmed, comma-free items joined with ", ". */
  lemma SplitStripJoin(items: seq<string>)
    requires |items| >= 1
    requires forall k :: 0 <= k < |items| ==> Trimmed(items[k]) && ',' !in items[k]
    ensures SplitAndStrip(Join(items, ", ")) == items
  {
    var out := SplitAndStrip(Join(items, ", "));
    StripJoinedPiece(items, 0);
    assert |out| == |items|;
    forall k | 0 <= k < |items|
      ensures out[k] == items[k]
    {
      StripJoinedPiece(items, k);
    }
  }

  /** Joining `n >= 1` comma-free items with ", " leaves exactly `n - 1` commas. */
  lemma JoinedCommaCount(items: seq<string>)
    requires forall k :: 0 <= k < |items| ==> ',' !in items[k]
    ensures items != [] ==> Count(Join(items, ", "), ',') == |items| - 1
  {
    if items != [] {
      SplitJoined(items);
    }
  }
}
