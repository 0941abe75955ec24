/** Splitting text at separator characters, as `String.prototype.split` with a
    character class (src/pages/UploadView.tsx) and `str::split` with a char
    (src-tauri/src/uploaders/r2.rs) do it. */
module Text {

  /** No character of `w` is one of `seps`. */
  predicate NoSep(w: string, seps: set<char>) {
    forall k :: 0 <= k < |w| ==> w[k] !in seps
  }

  /** `s` cut at every character of `seps`. There is always at least one piece:
      an empty `s` gives one empty piece. */
  function Split(s: string, seps: set<char>): (pieces: seq<string>)
    ensures |pieces| >= 1
    decreases |s|
  {
    if s == [] then [""]
    else
      var rest := Split(s[1..], seps);
      if s[0] in seps then [""] + rest
      else [[s[0]] + rest[0]] + rest[1..]
  }

  /** The pieces put back together with `sep` between them. */
  function Join(pieces: seq<string>, sep: char): string
    requires |pieces| >= 1
    decreases |pieces|
  {
    if |pieces| == 1 then pieces[0] else pieces[0] + [sep] + Join(pieces[1..], sep)
  }

  /** The last piece of `Split` holds no separator and is the whole of `s` or
      the part after a separator. */
  lemma {:induction false} SplitLast(s: string, seps: set<char>)
    ensures var pieces := Split(s, seps); var last := pieces[|pieces| - 1];
      && NoSep(last, seps)
      && |last| <= |s| && last == s[|s| - |last|..]
      && (|last| < |s| ==> s[|s| - |last| - 1] in seps)
      && (|pieces| > 1 ==> |last| < |s|)
    decreases |s|
  {
    if s != [] {
      SplitLast(s[1..], seps);
      var rest := Split(s[1..], seps);
      if s[0] in seps {
        SplitAtSeparator(s, seps);
      } else {
        SplitAtOther(s, seps);
        if |rest| == 1 {
          SplitSingle(s[1..], seps);
          assert s == [s[0]] + s[1..];
        }
      }
    }
  }

  /** When there is a single piece, it is the whole text. */
  lemma {:induction false} SplitSingle(s: string, seps: set<char>)
    requires |Split(s, seps)| == 1
    ensures Split(s, seps)[0] == s
    decreases |s|
  {
    if s != [] {
      if s[0] in seps {
        SplitAtSeparator(s, seps);
      } else {
        SplitAtOther(s, seps);
        SplitSingle(s[1..], seps);
        assert s == [s[0]] + s[1..];
      }
    }
  }

  /** Putting a character in front of the first piece puts it in front of the joined text. */
  lemma JoinPrepend(c: char, pieces: seq<string>, sep: char)
    requires |pieces| >= 1
    ensures Join([[c] + pieces[0]] + pieces[1..], sep) == [c] + Join(pieces, sep)
  {
    var moved := [[c] + pieces[0]] + pieces[1..];
    if |pieces| > 1 {
      assert moved[1..] == pieces[1..];
    }
  }

  lemma SplitAtSeparator(s: string, seps: set<char>)
    requires s != [] && s[0] in seps
    ensures Split(s, seps) == [""] + Split(s[1..], seps)
  {
  }

  lemma SplitAtOther(s: string, seps: set<char>)
    requires s != [] && s[0] !in seps
    ensures var rest := Split(s[1..], seps); Split(s, seps) == [[s[0]] + rest[0]] + rest[1..]
  {
  }

  /** Splitting at one separator loses nothing: joining the pieces with it gives `s` back. */
  lemma {:induction false} JoinSplit(s: string, sep: char)
    ensures Join(Split(s, {sep}), sep) == s
    decreases |s|
  {
    if s == [] {
      assert Split(s, {sep}) == [""];
    } else {
      JoinSplit(s[1..], sep);
      JoinSplitStep(s, sep);
    }
  }

  /** The inductive step of `JoinSplit`: one more character in front. */
  lemma JoinSplitStep(s: string, sep: char)
    requires s != [] && Join(Split(s[1..], {sep}), sep) == s[1..]
    ensures Join(Split(s, {sep}), sep) == s
  {
    assert s == [s[0]] + s[1..];
    if s[0] == sep {
      JoinAfterSeparator(s[1..], sep);
    } else {
      SplitAtOther(s, {sep});
      JoinPrepend(s[0], Split(s[1..], {sep}), sep);
    }
  }

  lemma JoinAfterSeparator(t: string, sep: char)
    requires Join(Split(t, {sep}), sep) == t
    ensures Join(Split([sep] + t, {sep}), sep) == [sep] + t
  {
    var s := [sep] + t;
    assert s[1..] == t;
    SplitAtSeparator(s, {sep});
    var rest := Split(t, {sep});
    var pieces := [""] + rest;
    assert pieces[1..] == rest;
    assert Join(pieces, sep) == "" + [sep] + Join(rest, sep);
  }

  /** Reference definition: the longest suffix of `s` that holds no separator,
      built from the right end. */
  function AfterLast(s: string, seps: set<char>): (r: string)
    ensures NoSep(r, seps)
    ensures |r| <= |s| && r == s[|s| - |r|..]
    ensures |r| < |s| ==> s[|s| - |r| - 1] in seps
    decreases |s|
  {
    if s == [] || s[|s| - 1] in seps then ""
    else AfterLast(s[..|s| - 1], seps) + [s[|s| - 1]]
  }

  /** A separator-free suffix that is the whole of `s` or starts right after a
      separator is `AfterLast(s, seps)`. */
  lemma AfterLastUnique(s: string, seps: set<char>, r: string)
    requires NoSep(r, seps)
    requires |r| <= |s| && r == s[|s| - |r|..]
    requires |r| < |s| ==> s[|s| - |r| - 1] in seps
    ensures r == AfterLast(s, seps)
  {
  }

  /** The last piece of `Split` is the reference `AfterLast`. */
  lemma {:induction false} LastPieceIsAfterLast(s: string, seps: set<char>)
    ensures var pieces := Split(s, seps); pieces[|pieces| - 1] == AfterLast(s, seps)
  {
    var pieces := Split(s, seps);
    SplitLast(s, seps);
    AfterLastUnique(s, seps, pieces[|pieces| - 1]);
  }
}
