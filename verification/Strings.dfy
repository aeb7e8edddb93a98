/** Splitting and joining of strings, as in the gateway library. */
module Strings {
  import opened Sequences

  /** The first occurrence of a splitter, or the length of the string. */
  function First(p: string, s: string): (e: nat)
    requires p != ""
    ensures e <= |s|
    ensures e < |s| ==> e + |p| <= |s|
    decreases |s|
  {
    if |s| < |p| then |s|
    else if s[..|p|] == p then 0
    else 1 + First(p, s[1..])
  }

  lemma {:induction false} FoundAt(p: string, s: string)
    requires p != "" && First(p, s) < |s|
    ensures s == s[..First(p, s)] + p + s[First(p, s) + |p|..]
    decreases |s|
  {
    if s[..|p|] == p {
      assert s == p + s[|p|..];
    } else {
      FoundAt(p, s[1..]);
      assert s == [s[0]] + s[1..];
    }
  }

  /** It is the leftmost one. */
  lemma {:induction false} FirstIsLeftmost(p: string, s: string, i: nat)
    requires p != "" && i + |p| <= |s| && s[i..i + |p|] == p
    ensures First(p, s) <= i && First(p, s) < |s|
    decreases |s|
  {
    if s[..|p|] != p {
      assert s[1..][i - 1..i - 1 + |p|] == s[i..i + |p|];
      FirstIsLeftmost(p, s[1..], i - 1);
    }
  }

  /** The end of the first piece; an empty splitter cuts behind every character. */
  function Cut(p: string, s: string): (e: nat)
    requires s != ""
    ensures e <= |s|
    ensures e < |s| ==> e + |p| <= |s|
    ensures p == "" ==> e == 1
  {
    if p == "" then 1 else First(p, s)
  }

  /** The pieces of a string, empty ones included; nothing comes behind a splitter at the end. */
  function Pieces(p: string, s: string): seq<string>
    decreases |s|
  {
    if s == "" then []
    else
      var e := Cut(p, s);
      if e + |p| < |s| then [s[..e]] + Pieces(p, s[e + |p|..]) else [s[..e]]
  }

  function DropEmptyTail(pieces: seq<string>): (r: seq<string>)
    ensures r == [] || r[|r| - 1] != ""
  {
    if pieces == [] || pieces[|pieces| - 1] != "" then pieces else DropEmptyTail(pieces[..|pieces| - 1])
  }

  function Split(p: string, s: string): seq<string> {
    DropEmptyTail(Pieces(p, s))
  }

  function Join(p: string, strings: seq<string>): string {
    if strings == [] then ""
    else if |strings| == 1 then strings[0]
    else strings[0] + p + Join(p, strings[1..])
  }

  // ----- the methods

  method SplitString(splitter: string, s: string) returns (result: seq<string>)
    ensures result == Split(splitter, s)
  {
    result := [];
    if s != "" {
      result := PiecesOf(splitter, s);
      while result != [] && result[|result| - 1] == ""
        invariant DropEmptyTail(result) == Split(splitter, s)
      {
        result := result[..|result| - 1];
      }
    }
  }

  /** The first loop of split: it ends for any splitter, the empty one included. */
  method PiecesOf(splitter: string, s: string) returns (result: seq<string>)
    requires s != ""
    ensures result == Pieces(splitter, s)
  {
    result := [];
    var b := 0;
    ghost var all := Pieces(splitter, s);
    assert s[0..] == s;
    while true
      invariant b < |s| && result + Pieces(splitter, s[b..]) == all
      decreases |s| - b
    {
      var e := CutFrom(splitter, s, b);
      ghost var rest := if e + |splitter| < |s| then Pieces(splitter, s[e + |splitter|..]) else [];
      Associate(result, [s[b..e]], rest);
      result := result + [s[b..e]];
      b := e + |splitter|;
      if b >= |s| {
        assert result + rest == result;
        break;
      }
    }
  }

  /** The end of the piece that begins at b: the next splitter, or the end of the string. */
  method CutFrom(splitter: string, s: string, b: nat) returns (e: nat)
    requires b < |s|
    ensures b <= e <= |s| && b < e + |splitter|
    ensures Pieces(splitter, s[b..]) ==
            [s[b..e]] + if e + |splitter| < |s| then Pieces(splitter, s[e + |splitter|..]) else []
  {
    var n := if splitter == "" then 1 else First(splitter, s[b..]);
    e := b + n;
    Slices(s, b, n);
    if e + |splitter| < |s| {
      Slices(s, b, n + |splitter|);
      NextPiece(splitter, s[b..], n, s[b..e], s[e + |splitter|..]);
    }
  }

  lemma {:induction false} Slices<T>(s: seq<T>, b: nat, n: nat)
    requires b + n <= |s|
    ensures s[b..][..n] == s[b..b + n] && s[b..][n..] == s[b + n..]
  {
  }

  lemma {:induction false} NextPiece(p: string, s: string, e: nat, piece: string, rest: string)
    requires s != "" && e == Cut(p, s) && piece == s[..e] && e + |p| < |s| && rest == s[e + |p|..]
    ensures Pieces(p, s) == [piece] + Pieces(p, rest)
  {
    assert [piece] == [s[..e]] && Pieces(p, rest) == Pieces(p, s[e + |p|..]);
  }

  /** What is left to append once i strings have been. */
  function Rest(joiner: string, strings: seq<string>, i: nat): string
    requires i <= |strings|
  {
    if i == |strings| then ""
    else if i == 0 then Join(joiner, strings)
    else joiner + Join(joiner, strings[i..])
  }

  lemma {:induction false} RestStep(joiner: string, strings: seq<string>, i: nat, now: string)
    requires i < |strings|
    ensures now + (if i > 0 then joiner else []) + strings[i] + Rest(joiner, strings, i + 1) ==
            now + Rest(joiner, strings, i)
  {
  }

  method JoinStrings(joiner: string, strings: seq<string>) returns (result: string)
    ensures result == Join(joiner, strings)
  {
    result := "";
    for i := 0 to |strings|
      invariant result + Rest(joiner, strings, i) == Join(joiner, strings)
    {
      RestStep(joiner, strings, i, result);
      if i > 0 {
        result := result + joiner;
      }
      result := result + strings[i];
    }
  }

  // ----- joining what was split

  function Copies(p: string, k: nat): string {
    if k == 0 then "" else p + Copies(p, k - 1)
  }

  lemma {:induction false} AtCut(p: string, s: string)
    requires s != "" && Cut(p, s) < |s|
    ensures s == s[..Cut(p, s)] + p + s[Cut(p, s) + |p|..]
  {
    if p != "" {
      FoundAt(p, s);
    }
  }

  /** The pieces, joined, are the string but for a splitter at its end; if there is none the last piece is not empty. */
  lemma {:induction false} JoinPieces(p: string, s: string) returns (atEnd: bool)
    requires s != ""
    ensures Pieces(p, s) != []
    ensures atEnd ==> s == Join(p, Pieces(p, s)) + p
    ensures !atEnd ==> s == Join(p, Pieces(p, s)) && Pieces(p, s)[|Pieces(p, s)| - 1] != ""
    decreases |s|
  {
    var e := Cut(p, s);
    if e + |p| < |s| {
      var rest := s[e + |p|..];
      atEnd := JoinPieces(p, rest);
      var pieces := Pieces(p, rest);
      assert Pieces(p, s) == [s[..e]] + pieces;
      assert ([s[..e]] + pieces)[1..] == pieces;
      AtCut(p, s);
      Associate(s[..e] + p, Join(p, pieces), p);
    } else {
      assert Pieces(p, s) == [s[..e]];
      atEnd := e < |s|;
      if e < |s| {
        AtCut(p, s);
        assert s[e + |p|..] == "";
      } else {
        assert s[..e] == s;
      }
    }
  }

  lemma {:induction false} JoinFew(p: string, x: string)
    ensures Join(p, []) == "" && Join(p, [x]) == x
  {
  }

  /** An empty splitter cuts a string into its characters. */
  lemma {:induction false} SplitIntoCharacters(s: string)
    ensures |Split("", s)| == |s| && forall i :: 0 <= i < |s| ==> Split("", s)[i] == [s[i]]
  {
    CharacterPieces(s);
  }

  lemma {:induction false} CharacterPieces(s: string)
    ensures |Pieces("", s)| == |s| && forall i :: 0 <= i < |s| ==> Pieces("", s)[i] == [s[i]]
  {
    if s != "" {
      CharacterPieces(s[1..]);
      assert s[..1] == [s[0]];
      if s[1..] == "" {
        assert Pieces("", s) == [s[..1]];
      } else {
        assert Pieces("", s) == [s[..1]] + Pieces("", s[1..]);
      }
    }
  }

  lemma {:induction false} JoinSnoc(p: string, strings: seq<string>, last: string)
    requires strings != []
    ensures Join(p, strings + [last]) == Join(p, strings) + p + last
  {
    if |strings| > 1 {
      assert (strings + [last])[1..] == strings[1..] + [last];
      JoinSnoc(p, strings[1..], last);
      assert strings[0] + p + (Join(p, strings[1..]) + p + last) == strings[0] + p + Join(p, strings[1..]) + p + last;
    } else {
      assert (strings + [last])[1..] == [last];
    }
  }

  lemma {:induction false} CopiesSnoc(p: string, k: nat)
    ensures Copies(p, k + 1) == Copies(p, k) + p
  {
    if k > 0 {
      CopiesSnoc(p, k - 1);
    }
  }

  lemma {:induction false} JoinDropped(p: string, pieces: seq<string>) returns (k: nat)
    ensures Join(p, pieces) == Join(p, DropEmptyTail(pieces)) + Copies(p, k)
  {
    if pieces == [] || pieces[|pieces| - 1] != "" {
      k := 0;
    } else {
      var init := pieces[..|pieces| - 1];
      assert init + [""] == pieces;
      k := JoinDropped(p, init);
      if init != [] {
        JoinSnoc(p, init, "");
        CopiesSnoc(p, k);
        k := k + 1;
      }
    }
  }

  /** Every string is its pieces joined, and some splitters behind. */
  lemma {:induction false} JoinSplit(p: string, s: string)
    ensures exists k :: s == Join(p, Split(p, s)) + Copies(p, k)
  {
    if s == "" {
      assert s == Join(p, Split(p, s)) + Copies(p, 0);
    } else {
      var atEnd := JoinPieces(p, s);
      var k := JoinDropped(p, Pieces(p, s));
      if atEnd {
        CopiesSnoc(p, k);
        Associate(Join(p, Split(p, s)), Copies(p, k), p);
        assert s == Join(p, Split(p, s)) + Copies(p, k + 1);
      } else {
        assert s == Join(p, Split(p, s)) + Copies(p, k);
      }
    }
  }

  // ----- splitting what was joined, for a splitter of one character

  lemma {:induction false} FirstIn(c: char, x: string, rest: string)
    requires c !in x
    ensures First([c], x + [c] + rest) == |x| && First([c], x) == |x|
  {
    var s := x + [c] + rest;
    if x != "" {
      assert s[1..] == x[1..] + [c] + rest;
      assert s[..1] == [x[0]] && x[..1] == [x[0]] && x[0] in x;
      FirstIn(c, x[1..], rest);
    } else {
      assert s[..1] == [c];
    }
  }

  lemma {:induction false} NoneBefore(c: char, s: string)
    ensures c !in s[..First([c], s)]
    decreases |s|
  {
    if s != "" && s[..1] != [c] {
      NoneBefore(c, s[1..]);
      var e := First([c], s[1..]);
      assert s[..1 + e] == [s[0]] + s[1..][..e];
      assert s[0] == s[..1][0];
    }
  }

  ghost predicate Free(c: char, strings: seq<string>) {
    forall i :: 0 <= i < |strings| ==> c !in strings[i]
  }

  lemma {:induction false} PiecesAreFree(c: char, s: string)
    ensures Free(c, Pieces([c], s))
    decreases |s|
  {
    if s != "" {
      NoneBefore(c, s);
      var e := Cut([c], s);
      if e + 1 < |s| {
        PiecesAreFree(c, s[e + 1..]);
      }
    }
  }

  lemma {:induction false} LastInJoin(p: string, strings: seq<string>)
    requires strings != [] && strings[|strings| - 1] != ""
    ensures Join(p, strings) != ""
  {
    if |strings| > 1 {
      LastInJoin(p, strings[1..]);
    }
  }

  lemma {:induction false} CutAt(c: char, x: string, rest: string)
    requires c !in x && rest != ""
    ensures Pieces([c], x + [c] + rest) == [x] + Pieces([c], rest)
  {
    var s := x + [c] + rest;
    FirstIn(c, x, rest);
    assert s[..|x|] == x && s[|x| + 1..] == rest;
  }

  lemma {:induction false} PiecesJoin(c: char, strings: seq<string>)
    requires Free(c, strings) && (strings == [] || strings[|strings| - 1] != "")
    ensures Pieces([c], Join([c], strings)) == strings
    decreases |strings|
  {
    if strings != [] {
      var x, more := strings[0], strings[1..];
      if more == [] {
        FirstIn(c, x, "");
        assert x[..|x|] == x;
        assert strings == [x];
      } else {
        LastInJoin([c], more);
        CutAt(c, x, Join([c], more));
        PiecesJoin(c, more);
        assert strings == [x] + more;
      }
    }
  }

  lemma {:induction false} DropKeepsFree(c: char, pieces: seq<string>)
    requires Free(c, pieces)
    ensures Free(c, DropEmptyTail(pieces))
  {
    if pieces != [] && pieces[|pieces| - 1] == "" {
      DropKeepsFree(c, pieces[..|pieces| - 1]);
    }
  }

  /** Splitting undoes joining exactly for pieces that are free of the splitter and do not end in an empty one. */
  lemma {:induction false} SplitJoinExactly(c: char, strings: seq<string>)
    ensures Split([c], Join([c], strings)) == strings <==>
            Free(c, strings) && (strings == [] || strings[|strings| - 1] != "")
  {
    var s := Join([c], strings);
    if Free(c, strings) && (strings == [] || strings[|strings| - 1] != "") {
      PiecesJoin(c, strings);
    }
    PiecesAreFree(c, s);
    DropKeepsFree(c, Pieces([c], s));
  }

  /** Without dropping empty pieces the same holds: one at the end is lost. */
  lemma {:induction false} PiecesJoinExactly(c: char, strings: seq<string>)
    ensures Pieces([c], Join([c], strings)) == strings <==>
            Free(c, strings) && (strings == [] || strings[|strings| - 1] != "")
  {
    var s := Join([c], strings);
    if Free(c, strings) && (strings == [] || strings[|strings| - 1] != "") {
      PiecesJoin(c, strings);
    }
    PiecesAreFree(c, s);
    if Pieces([c], s) == strings && s != "" {
      var atEnd := JoinPieces([c], s);
      assert |s| == |Join([c], strings)|;
    }
  }
}
