/** The `QString` operations the assembler relies on, on `seq<char>`:
    `trimmed`, `split(QRegularExpression("\\s+"), Qt::SkipEmptyParts)`,
    `startsWith`, `endsWith`, `contains`, `indexOf`, `mid`, `chopped`, `remove`. */
module Text {

  /** The ASCII white-space characters `QChar::isSpace` accepts. */
  predicate IsSpace(c: char)
  {
    c == ' ' || c == '\t' || c == '\n' || c == '\r' || c == '\U{B}' || c == '\U{C}'
  }

  predicate NoSpace(s: string)
  {
    forall i :: 0 <= i < |s| ==> !IsSpace(s[i])
  }

  function TrimLeft(s: string): (r: string)
    ensures |r| <= |s| && r == s[|s| - |r|..]
    ensures r == "" || !IsSpace(r[0])
    decreases |s|
  {
    if s != "" && IsSpace(s[0]) then TrimLeft(s[1..]) else s
  }

  function TrimRight(s: string): (r: string)
    ensures |r| <= |s| && r == s[..|r|]
    ensures r == "" || !IsSpace(r[|r| - 1])
    decreases |s|
  {
    if s != "" && IsSpace(s[|s| - 1]) then TrimRight(s[..|s| - 1]) else s
  }

  predicate Trimmed(s: string)
  {
    s == "" || (!IsSpace(s[0]) && !IsSpace(s[|s| - 1]))
  }

  /** `QString::trimmed`: white space removed from both ends. */
  function Trim(s: string): (r: string)
    ensures Trimmed(r)
    ensures Trimmed(s) ==> r == s
  {
    var l := TrimLeft(s);
    var r := TrimRight(l);
    assert r != "" ==> r[0] == l[0];
    r
  }

  /** `split(QRegularExpression("\\s+"), Qt::SkipEmptyParts)`: the maximal runs
      of non-space characters, left to right. */
  function Words(s: string): (ws: seq<string>)
    ensures forall i :: 0 <= i < |ws| ==> ws[i] != "" && NoSpace(ws[i])
    ensures s != "" && !IsSpace(s[|s| - 1]) ==> ws != []
    decreases |s|
  {
    if s == "" then []
    else
      var c := s[|s| - 1];
      var init := s[..|s| - 1];
      var ws := Words(init);
      if IsSpace(c) then ws
      else if init != "" && !IsSpace(init[|init| - 1]) then
        ws[..|ws| - 1] + [ws[|ws| - 1] + [c]]
      else ws + [[c]]
  }

  predicate StartsWith(s: string, prefix: string)
  {
    |prefix| <= |s| && s[..|prefix|] == prefix
  }

  predicate EndsWith(s: string, c: char)
  {
    s != "" && s[|s| - 1] == c
  }

  /** `QString::indexOf(c)` when `c` occurs: the first position of `c`. */
  function IndexOf(s: string, c: char): (k: nat)
    requires c in s
    ensures k < |s| && s[k] == c && c !in s[..k]
  {
    if s[0] == c then 0 else
      assert c in s[1..] by { var i :| 0 <= i < |s| && s[i] == c; assert s[1..][i - 1] == c; }
      1 + IndexOf(s[1..], c)
  }

  /** `QString::mid(k)`: the characters from position `k` on. */
  function Mid(s: string, k: nat): (r: string)
    ensures |r| == if k <= |s| then |s| - k else 0
  {
    if k <= |s| then s[k..] else ""
  }

  /** `QString::chopped(1)`: all but the last character. */
  function Chopped(s: string): string
  {
    if s == "" then "" else s[..|s| - 1]
  }

  /** `QString::remove(c)`: every occurrence of `c` removed. */
  function RemoveChar(s: string, c: char): (r: string)
    ensures c !in r
    decreases |s|
  {
    if s == "" then ""
    else (if s[0] == c then "" else [s[0]]) + RemoveChar(s[1..], c)
  }

  /** Trimming only removes characters. */
  lemma TrimChars(s: string)
    ensures forall c :: c in Trim(s) ==> c in s
  {
    var l := TrimLeft(s);
    assert forall c :: c in l ==> c in s by {
      forall c | c in l ensures c in s {
        var k :| 0 <= k < |l| && l[k] == c;
        assert s[|s| - |l| + k] == c;
      }
    }
    var r := TrimRight(l);
    assert forall c :: c in r ==> c in l by {
      forall c | c in r ensures c in l {
        var k :| 0 <= k < |r| && r[k] == c;
        assert l[k] == c;
      }
    }
  }
}
