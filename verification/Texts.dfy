/** Texts : the spaces at their ends, their lines, the place of one text in another. */
module Texts {
  import opened Wrappers

  /** What JavaScript's trim takes for a space. */
  predicate IsSpace(c: char) {
    var n := c as int;
    9 <= n <= 13 || n == 0x20 || n == 0xA0 || n == 0x1680 || 0x2000 <= n <= 0x200A || n == 0x2028 || n == 0x2029
    || n == 0x202F || n == 0x205F || n == 0x3000 || n == 0xFEFF
  }

  function TrimStart(s: string): string {
    if s != "" && IsSpace(s[0]) then TrimStart(s[1..]) else s
  }

  function TrimEnd(s: string): string {
    if s != "" && IsSpace(s[|s| - 1]) then TrimEnd(s[..|s| - 1]) else s
  }

  function Trim(s: string): string {
    TrimEnd(TrimStart(s))
  }

  predicate Trimmed(s: string) {
    s == "" || (!IsSpace(s[0]) && !IsSpace(s[|s| - 1]))
  }

  lemma {:induction false} TrimStartIs(s: string)
    ensures |TrimStart(s)| <= |s| && TrimStart(s) == s[|s| - |TrimStart(s)|..]
    ensures TrimStart(s) != "" ==> !IsSpace(TrimStart(s)[0])
  {
    if s != "" && IsSpace(s[0]) { TrimStartIs(s[1..]); }
  }

  lemma {:induction false} TrimEndIs(s: string)
    ensures |TrimEnd(s)| <= |s| && TrimEnd(s) == s[..|TrimEnd(s)|]
    ensures TrimEnd(s) != "" ==> !IsSpace(TrimEnd(s)[|TrimEnd(s)| - 1])
  {
    if s != "" && IsSpace(s[|s| - 1]) { TrimEndIs(s[..|s| - 1]); }
  }

  /** What is trimmed has no space at its ends, and what has none is left as it is. */
  lemma TrimIsTrimmed(s: string)
    ensures Trimmed(Trim(s))
    ensures Trimmed(s) <==> Trim(s) == s
  {
    var t := TrimStart(s);
    TrimStartIs(s);
    TrimEndIs(t);
    hide IsSpace;
    if Trim(s) != "" {
      assert Trim(s)[0] == t[0];
    }
  }

  /** The characters trimmed : the white space and the line ends of ECMAScript (section 12.2 and 12.3). */
  lemma SpacesAre(c: char)
    ensures IsSpace(c) <==>
            c as int in {0x9, 0xA, 0xB, 0xC, 0xD, 0x20, 0xA0, 0x1680, 0x2000, 0x2001, 0x2002, 0x2003, 0x2004, 0x2005,
                         0x2006, 0x2007, 0x2008, 0x2009, 0x200A, 0x2028, 0x2029, 0x202F, 0x205F, 0x3000, 0xFEFF}
  {
  }

  ghost predicate AllSpace(s: string) {
    forall i :: 0 <= i < |s| ==> IsSpace(s[i])
  }

  lemma {:induction false} TrimStartCuts(s: string)
    ensures |TrimStart(s)| <= |s| && s == s[..|s| - |TrimStart(s)|] + TrimStart(s)
    ensures AllSpace(s[..|s| - |TrimStart(s)|])
  {
    if s != "" && IsSpace(s[0]) {
      var rest := s[1..];
      TrimStartCuts(rest);
      var n := |rest| - |TrimStart(rest)|;
      assert s[..n + 1] == [s[0]] + rest[..n];
    }
  }

  lemma {:induction false} TrimEndCuts(s: string)
    ensures |TrimEnd(s)| <= |s| && s == TrimEnd(s) + s[|TrimEnd(s)|..]
    ensures AllSpace(s[|TrimEnd(s)|..])
  {
    if s != "" && IsSpace(s[|s| - 1]) {
      var front := s[..|s| - 1];
      TrimEndCuts(front);
      assert s[|TrimEnd(front)|..] == front[|TrimEnd(front)|..] + [s[|s| - 1]];
    }
  }

  /** Trimming cuts spaces at both ends and nothing else. */
  lemma TrimCuts(s: string) returns (a: string, b: string)
    ensures s == a + Trim(s) + b && AllSpace(a) && AllSpace(b) && Trimmed(Trim(s))
  {
    TrimStartCuts(s);
    TrimEndCuts(TrimStart(s));
    TrimIsTrimmed(s);
    var t := TrimStart(s);
    a, b := s[..|s| - |t|], t[|Trim(s)|..];
  }

  predicate OccursAt<T(==)>(s: seq<T>, t: seq<T>, i: int) {
    0 <= i && i + |t| <= |s| && s[i..i + |t|] == t
  }

  /** The first place `t` stands in `s`, from `from` on. */
  function IndexFrom<T(==)>(s: seq<T>, t: seq<T>, from: nat): (at: Option<nat>)
    requires from <= |s|
    ensures at.Some? ==> from <= at.value && OccursAt(s, t, at.value)
    ensures forall i :: from <= i && OccursAt(s, t, i) ==> at.Some? && at.value <= i
    decreases |s| - from
  {
    if OccursAt(s, t, from) then Some(from)
    else if from == |s| then None
    else IndexFrom(s, t, from + 1)
  }

  function IndexOf<T(==)>(s: seq<T>, t: seq<T>): (at: Option<nat>)
    ensures at.Some? ==> OccursAt(s, t, at.value)
    ensures forall i :: OccursAt(s, t, i) ==> at.Some? && at.value <= i
  {
    IndexFrom(s, t, 0)
  }

  /** The lines of a text : what stands between its line feeds. */
  function Lines(s: string): (lines: seq<string>)
    ensures lines != []
    decreases |s|
  {
    match IndexOf(s, "\n")
    case None => [s]
    case Some(at) => [s[..at]] + Lines(s[at + 1..])
  }

  /** Lines with a line feed between each two. */
  function Together(lines: seq<string>): string {
    if lines == [] then "" else if |lines| == 1 then lines[0] else lines[0] + "\n" + Together(lines[1..])
  }

  lemma LineFeedOccurs(s: string, k: nat)
    requires k < |s|
    ensures OccursAt(s, "\n", k) <==> s[k] == '\n'
  {
    assert s[k..k + 1] == [s[k]];
  }

  /** The lines make up the text, and none has a line feed in it. */
  lemma {:induction false} LinesAre(s: string)
    ensures Together(Lines(s)) == s && forall i :: 0 <= i < |Lines(s)| ==> '\n' !in Lines(s)[i]
    decreases |s|
  {
    var at := IndexOf(s, "\n");
    hide IndexOf;
    match at {
      case None =>
        forall k | 0 <= k < |s| ensures s[k] != '\n' {
          LineFeedOccurs(s, k);
        }
      case Some(i) =>
        var rest := Lines(s[i + 1..]);
        LinesAre(s[i + 1..]);
        assert ([s[..i]] + rest)[1..] == rest;
        assert s[i..i + 1] == "\n" && s == s[..i] + s[i..i + 1] + s[i + 1..];
        forall k | 0 <= k < i ensures s[k] != '\n' {
          LineFeedOccurs(s, k);
        }
    }
  }
}
