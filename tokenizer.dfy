/** The comment-truncating tokenizer `Split(line, separator)` of
    AssemblerLogic.cpp, which assembler.cpp repeats verbatim as
    `splitWithoutComments`: it walks the line character by character, stops at
    the first ';', cuts at every separator, and keeps each non-empty piece
    after `trimmed()`. */
module Tokenizer {
  import opened Text

  /** The part of `line` before its first ';'. */
  function BeforeComment(line: string): (s: string)
    ensures |s| <= |line| && ';' !in s && s == line[..|s|]
    ensures |s| < |line| ==> line[|s|] == ';'
  {
    if ';' in line then line[..IndexOf(line, ';')] else line
  }

  /** The pieces of `s` between separators, empty pieces included: the exact
      inverse of `Join` (see `PiecesJoin`). */
  function Pieces(s: string, sep: char): (ps: seq<string>)
    ensures |ps| >= 1
    ensures forall i :: 0 <= i < |ps| ==> sep !in ps[i]
    decreases |s|
  {
    if s == "" then [""]
    else
      var ps := Pieces(s[..|s| - 1], sep);
      var c := s[|s| - 1];
      if c == sep then ps + [""] else ps[..|ps| - 1] + [ps[|ps| - 1] + [c]]
  }

  /** The pieces glued back together with the separator between them. */
  function Join(ps: seq<string>, sep: char): string
    requires |ps| >= 1
  {
    if |ps| == 1 then ps[0] else Join(ps[..|ps| - 1], sep) + [sep] + ps[|ps| - 1]
  }

  /** The tokens a run of pieces contributes: each non-empty piece, trimmed. */
  function Kept(ps: seq<string>): seq<string>
  {
    if ps == [] then []
    else Kept(ps[..|ps| - 1]) + (if ps[|ps| - 1] == "" then [] else [Trim(ps[|ps| - 1])])
  }

  /** What `Split(line, sep)` returns. */
  function SplitSpec(line: string, sep: char): seq<string>
  {
    Kept(Pieces(BeforeComment(line), sep))
  }

  /** `Split`: the loop of AssemblerLogic.cpp, with its unused `commentFound`
      flag left out. */
  method Split(line: string, sep: char) returns (tokens: seq<string>)
    ensures tokens == SplitSpec(line, sep)
  {
    tokens := [];
    var current := "";
    var i := 0;
    while i < |line|
      invariant 0 <= i <= |line|
      invariant ';' !in line[..i]
      invariant var ps := Pieces(line[..i], sep); current == ps[|ps| - 1] && tokens == Kept(ps[..|ps| - 1])
    {
      var ch := line[i];
      if ch == ';' {
        break;
      }
      assert line[..i + 1][..i] == line[..i];
      if ch == sep {
        if current != "" {
          tokens := tokens + [Trim(current)];
          current := "";
        }
      } else {
        current := current + [ch];
      }
      i := i + 1;
    }
    assert BeforeComment(line) == line[..i] by {
      if i < |line| {
        assert line[i] == ';' && IndexOf(line, ';') == i;
      }
    }
    if current != "" {
      tokens := tokens + [Trim(current)];
    }
  }

  // ----- properties -----

  lemma {:induction false} KeptChars(ps: seq<string>, c: char)
    requires forall i :: 0 <= i < |ps| ==> c !in ps[i]
    ensures forall i :: 0 <= i < |Kept(ps)| ==> c !in Kept(ps)[i]
    decreases |ps|
  {
    if ps != [] {
      KeptChars(ps[..|ps| - 1], c);
      TrimChars(ps[|ps| - 1]);
    }
  }

  /** No token holds the separator, and none holds a ';' or anything after it. */
  lemma SplitTokens(line: string, sep: char)
    ensures forall i :: 0 <= i < |SplitSpec(line, sep)| ==> sep !in SplitSpec(line, sep)[i]
    ensures forall i :: 0 <= i < |SplitSpec(line, sep)| ==> ';' !in SplitSpec(line, sep)[i]
  {
    var s := BeforeComment(line);
    var ps := Pieces(s, sep);
    KeptChars(ps, sep);
    forall i | 0 <= i < |ps| ensures ';' !in ps[i] {
      PiecesChars(s, sep, i);
    }
    KeptChars(ps, ';');
  }

  lemma {:induction false} PiecesChars(s: string, sep: char, i: nat)
    requires i < |Pieces(s, sep)|
    ensures forall c :: c in Pieces(s, sep)[i] ==> c in s
    decreases |s|
  {
    if s != "" {
      var init := s[..|s| - 1];
      var ps := Pieces(init, sep);
      if i < |ps| {
        PiecesChars(init, sep, i);
      }
    }
  }

  /** The pieces, in order and with the separators put back, are the string. */
  lemma {:induction false} PiecesJoin(s: string, sep: char)
    ensures Join(Pieces(s, sep), sep) == s
    decreases |s|
  {
    if s != "" {
      var init := s[..|s| - 1];
      var c := s[|s| - 1];
      PiecesJoin(init, sep);
      assert init + [c] == s;
      if c == sep {
        SeparatorStep(init, sep);
      } else {
        CharacterStep(init, c, sep);
      }
    }
  }

  /** A separator after `init` opens a new, empty piece. */
  lemma SeparatorStep(init: string, sep: char)
    requires Join(Pieces(init, sep), sep) == init
    ensures Join(Pieces(init + [sep], sep), sep) == init + [sep]
  {
    var s := init + [sep];
    assert s[..|s| - 1] == init;
    JoinEmptyLast(Pieces(init, sep), sep);
  }

  /** Any other character after `init` extends the last piece. */
  lemma CharacterStep(init: string, c: char, sep: char)
    requires c != sep && Join(Pieces(init, sep), sep) == init
    ensures Join(Pieces(init + [c], sep), sep) == init + [c]
  {
    var s := init + [c];
    assert s[..|s| - 1] == init;
    JoinExtendLast(Pieces(init, sep), c, sep);
  }

  /** A new empty piece adds one separator. */
  lemma JoinEmptyLast(ps: seq<string>, sep: char)
    requires |ps| >= 1
    ensures Join(ps + [""], sep) == Join(ps, sep) + [sep]
  {
    assert (ps + [""])[..|ps|] == ps;
  }

  /** A character appended to the last piece is appended to the string. */
  lemma JoinExtendLast(ps: seq<string>, c: char, sep: char)
    requires |ps| >= 1
    ensures Join(ps[..|ps| - 1] + [ps[|ps| - 1] + [c]], sep) == Join(ps, sep) + [c]
  {
    var n := |ps|;
    var last := ps[n - 1];
    var ps' := ps[..n - 1] + [last + [c]];
    if n > 1 {
      assert ps'[..n - 1] == ps[..n - 1];
      assert Join(ps', sep) == Join(ps[..n - 1], sep) + [sep] + (last + [c]);
    }
  }
}
