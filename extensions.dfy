/**
 * Assets/Scripts/Interface/Extensions.cs: the string and comparison helpers the
 * interface code uses (ToGUIName, IsBetween, IsFoundIn).
 */
module Extensions {
  import opened Common

  // ---------------------------------------------------------------------------
  // ToGUIName: "SOME_wordName" style identifiers turned into button captions
  // ---------------------------------------------------------------------------

  /** A space goes in front of character i when it starts a capitalised word. */
  predicate WordBreak(w: string, i: nat)
    requires i < |w|
  {
    IsUpper(w[i]) && i + 1 < |w| && IsLower(w[i + 1])
  }

  /** What the loop appends for index i: nothing for '_', otherwise an optional space and the character. */
  function Piece(w: string, i: nat): string
    requires i < |w|
  {
    if w[i] == '_' then "" else (if WordBreak(w, i) then " " else "") + [w[i]]
  }

  /** The caption text the loop has appended once it reaches index i: the pieces of indices 1 .. i-1. */
  function GUIPieces(w: string, i: nat): string
    requires 1 <= i <= |w|
  {
    if i == 1 then "" else GUIPieces(w, i - 1) + Piece(w, i - 1)
  }

  /** The caption: the first character upper-cased, then the pieces of the rest. */
  function GUIName(w: string): string
    requires |w| > 0
  {
    [ToUpper(w[0])] + GUIPieces(w, |w|)
  }

  /**
   * ToGUIName, as the source writes it: an index loop accumulating the answer, i.e.
   * the caption GUIName describes. The empty string is outside its domain (the source
   * reads word[0]).
   */
  method ToGUIName(word: string) returns (ans: string)
    requires |word| > 0
    ensures ans == GUIName(word)
  {
    var first := [ToUpper(word[0])];
    ans := first;
    var i := 1;
    while i < |word|
      invariant 1 <= i <= |word|
      invariant ans == first + GUIPieces(word, i)
    {
      if word[i] == '_' {
        SkipStep(word, i, first, ans);
        i := i + 1;
        continue;
      }
      ghost var before := ans;
      if IsUpper(word[i]) && (i + 1 < |word| && IsLower(word[i + 1])) {
        ans := ans + " ";
      }
      ans := ans + [word[i]];
      CharStep(word, i, first, before, ans);
      i := i + 1;
    }
  }

  /** An underscore adds nothing: the caption so far is already the caption up to index i + 1. */
  lemma SkipStep(word: string, i: nat, first: string, sofar: string)
    requires 1 <= i < |word| && word[i] == '_' && sofar == first + GUIPieces(word, i)
    ensures sofar == first + GUIPieces(word, i + 1)
  {
    assert Piece(word, i) == [];
    assert GUIPieces(word, i + 1) == GUIPieces(word, i) + [];
  }

  /** Any other character, with its space at a word break, extends the caption to index i + 1. */
  lemma CharStep(word: string, i: nat, first: string, before: string, after: string)
    requires 1 <= i < |word| && word[i] != '_' && before == first + GUIPieces(word, i)
    requires WordBreak(word, i) ==> after == before + " " + [word[i]]
    requires !WordBreak(word, i) ==> after == before + [word[i]]
    ensures after == first + GUIPieces(word, i + 1)
  {
    var p := GUIPieces(word, i);
    if WordBreak(word, i) {
      assert Piece(word, i) == " " + [word[i]];
      assert GUIPieces(word, i + 1) == p + (" " + [word[i]]);
      assert after == (first + p) + " " + [word[i]];
      AppendAssoc(first, p, " " + [word[i]]);
      AppendAssoc(first + p, " ", [word[i]]);
    } else {
      assert Piece(word, i) == [word[i]];
      assert GUIPieces(word, i + 1) == p + [word[i]];
      AppendAssoc(first, p, [word[i]]);
    }
  }

  lemma AppendAssoc(a: string, b: string, c: string)
    ensures a + (b + c) == (a + b) + c
  {
  }

  /** Removes every space. */
  function NoSpaces(s: string): string {
    if s == [] then [] else (if s[0] == ' ' then [] else [s[0]]) + NoSpaces(s[1..])
  }

  /** Removes every underscore. */
  function NoUnderscores(s: string): string {
    if s == [] then [] else (if s[0] == '_' then [] else [s[0]]) + NoUnderscores(s[1..])
  }

  lemma {:induction false} NoSpacesAppend(a: string, b: string)
    ensures NoSpaces(a + b) == NoSpaces(a) + NoSpaces(b)
  {
    if a == [] {
      assert a + b == b;
    } else {
      var head := if a[0] == ' ' then [] else [a[0]];
      var ab := a + b;
      assert ab[0] == a[0] && ab[1..] == a[1..] + b;
      NoSpacesAppend(a[1..], b);
      AppendAssoc(head, NoSpaces(a[1..]), NoSpaces(b));
    }
  }

  lemma {:induction false} NoUnderscoresAppend(a: string, b: string)
    ensures NoUnderscores(a + b) == NoUnderscores(a) + NoUnderscores(b)
  {
    if a == [] {
      assert a + b == b;
    } else {
      var head := if a[0] == '_' then [] else [a[0]];
      var ab := a + b;
      assert ab[0] == a[0] && ab[1..] == a[1..] + b;
      NoUnderscoresAppend(a[1..], b);
      AppendAssoc(head, NoUnderscores(a[1..]), NoUnderscores(b));
    }
  }

  /** The pieces up to index i contain no underscore. */
  lemma {:induction false} GUIPiecesNoUnderscore(w: string, i: nat)
    requires 1 <= i <= |w|
    ensures '_' !in GUIPieces(w, i)
  {
    if i > 1 {
      GUIPiecesNoUnderscore(w, i - 1);
      assert '_' !in Piece(w, i - 1);
    }
  }

  /** Underscores at index 1 or later never reach the caption. */
  lemma GUINameNoUnderscore(w: string)
    requires |w| > 0
    ensures forall j :: 1 <= j < |GUIName(w)| ==> GUIName(w)[j] != '_'
  {
    var p := GUIPieces(w, |w|);
    GUIPiecesNoUnderscore(w, |w|);
    forall j | 1 <= j < |GUIName(w)|
      ensures GUIName(w)[j] != '_'
    {
      assert GUIName(w)[j] == p[j - 1];
    }
  }

  /** One piece, spaces deleted, is the character with spaces and underscores deleted. */
  lemma PieceStrip(w: string, k: nat)
    requires k < |w|
    ensures NoSpaces(Piece(w, k)) == NoSpaces(NoUnderscores([w[k]]))
  {
    var c := w[k];
    assert NoUnderscores([c]) == if c == '_' then [] else [c] by {
      assert [c][1..] == [];
    }
    assert NoSpaces([c]) == if c == ' ' then [] else [c] by {
      assert [c][1..] == [];
    }
    if c != '_' && WordBreak(w, k) {
      assert Piece(w, k) == [' ', c];
      assert [' ', c][1..] == [c];
    }
  }

  /** Deleting the spaces of the pieces gives the input's indices 1 .. i-1 with spaces and underscores deleted. */
  lemma {:induction false} GUIPiecesStrip(w: string, i: nat)
    requires 1 <= i <= |w|
    ensures NoSpaces(GUIPieces(w, i)) == NoSpaces(NoUnderscores(w[1..i]))
  {
    if i > 1 {
      GUIPiecesStrip(w, i - 1);
      StripNext(w, i);
    } else {
      StripNothing(w);
    }
  }

  /** Before index 1 there are no pieces and nothing of the input. */
  lemma StripNothing(w: string)
    requires 1 <= |w|
    ensures NoSpaces(GUIPieces(w, 1)) == NoSpaces(NoUnderscores(w[1..1]))
  {
    var e := w[1..1];
    assert e == [];
  }

  /** One more piece on the caption side is one more character on the input side. */
  lemma StripNext(w: string, i: nat)
    requires 1 < i <= |w|
    requires NoSpaces(GUIPieces(w, i - 1)) == NoSpaces(NoUnderscores(w[1..i - 1]))
    ensures NoSpaces(GUIPieces(w, i)) == NoSpaces(NoUnderscores(w[1..i]))
  {
    var k := i - 1;
    assert GUIPieces(w, i) == GUIPieces(w, k) + Piece(w, k);
    SliceSnoc(w, 1, i);
    PieceStrip(w, k);
    StripAppend(GUIPieces(w, k), Piece(w, k), w[1..k], [w[k]], GUIPieces(w, i), w[1..i]);
  }

  /** A slice is the slice one shorter followed by its last character. */
  lemma SliceSnoc(w: string, lo: nat, hi: nat)
    requires lo < hi <= |w|
    ensures w[lo..hi] == w[lo..hi - 1] + [w[hi - 1]]
  {
  }

  /** Stripping commutes with concatenation on both sides. */
  lemma StripAppend(a: string, b: string, x: string, y: string, ab: string, xy: string)
    requires NoSpaces(a) == NoSpaces(NoUnderscores(x)) && NoSpaces(b) == NoSpaces(NoUnderscores(y))
    requires ab == a + b && xy == x + y
    ensures NoSpaces(ab) == NoSpaces(NoUnderscores(xy))
  {
    NoSpacesAppend(a, b);
    NoUnderscoresAppend(x, y);
    NoSpacesAppend(NoUnderscores(x), NoUnderscores(y));
  }

  /**
   * ToGUIName only inserts spaces and drops underscores: once spaces are deleted from
   * both, the caption is the input with its first character upper-cased and the
   * underscores after index 0 removed.
   */
  lemma GUINameStrip(w: string)
    requires |w| > 0
    ensures NoSpaces(GUIName(w)) == NoSpaces([ToUpper(w[0])] + NoUnderscores(w[1..]))
  {
    var u := [ToUpper(w[0])];
    GUIPiecesStrip(w, |w|);
    assert w[1..|w|] == w[1..];
    NoSpacesAppend(u, GUIPieces(w, |w|));
    NoSpacesAppend(u, NoUnderscores(w[1..]));
  }

  /** Number of word breaks among indices 1 .. i-1 (each costs one inserted space). */
  function Breaks(w: string, i: nat): nat
    requires 1 <= i <= |w|
  {
    if i == 1 then 0 else Breaks(w, i - 1) + if WordBreak(w, i - 1) then 1 else 0
  }

  /** Number of underscores among indices 1 .. i-1. */
  function Underscores(w: string, i: nat): nat
    requires 1 <= i <= |w|
  {
    if i == 1 then 0 else Underscores(w, i - 1) + if w[i - 1] == '_' then 1 else 0
  }

  /**
   * A space is emitted for each word break, and nothing else is added: the pieces up
   * to index i are as many as the indices 1 .. i-1, minus their underscores, plus their word breaks.
   */
  lemma {:induction false} GUIPiecesLength(w: string, i: nat)
    requires 1 <= i <= |w|
    ensures |GUIPieces(w, i)| == i - 1 - Underscores(w, i) + Breaks(w, i)
  {
    if i > 1 {
      GUIPiecesLength(w, i - 1);
    }
  }

  /** For index i >= 1 a space is put in front of w[i] exactly at a word break. */
  lemma PieceSpace(w: string, i: nat)
    requires 1 <= i < |w|
    ensures WordBreak(w, i) <==> Piece(w, i) == [' ', w[i]]
    ensures !WordBreak(w, i) ==> Piece(w, i) == (if w[i] == '_' then [] else [w[i]])
  {
  }

  // ---------------------------------------------------------------------------
  // IsBetween and IsFoundIn
  // ---------------------------------------------------------------------------

  /** IsBetween: the lower bound is included and the upper bound excluded. */
  predicate IsBetween(value: int, min: int, max: int) {
    min <= value && value < max
  }

  /** Splitting [min, max) at mid: a value lies in the whole range iff it lies in exactly one half. */
  lemma IsBetweenSplit(value: int, min: int, mid: int, max: int)
    requires min <= mid <= max
    ensures IsBetween(value, min, max) <==> IsBetween(value, min, mid) || IsBetween(value, mid, max)
    ensures !(IsBetween(value, min, mid) && IsBetween(value, mid, max))
  {
  }

  /** IsFoundIn over an array: a foreach search that returns at the first equal element. */
  method IsFoundIn<T(==)>(obj: T, objs: seq<T>) returns (found: bool)
    ensures found <==> obj in objs
  {
    var k := 0;
    while k < |objs|
      invariant 0 <= k <= |objs|
      invariant obj !in objs[..k]
    {
      if objs[k] == obj {
        return true;
      }
      k := k + 1;
    }
    assert objs[..k] == objs;
    return false;
  }
}
