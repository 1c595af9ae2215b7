/**
 * The few pieces of Java's string and text-file behaviour the Mercurial
 * integration relies on: String.trim(), String.split("\\n"),
 * BufferedReader.readLine() on a whole file and PrintWriter.println().
 * Each is defined here once, with the property a caller can rely on.
 */
module JavaText {
  import opened Wrappers

  /** The characters String.trim() removes: every code up to and including U+0020. */
  predicate IsBlank(c: char) {
    c <= ' '
  }

  /** s without its leading blanks. */
  function TrimStart(s: string): (r: string)
    ensures |r| <= |s| && r == s[|s| - |r|..]
    ensures forall k :: 0 <= k < |s| - |r| ==> IsBlank(s[k])
    ensures r != [] ==> !IsBlank(r[0])
  {
    if s != [] && IsBlank(s[0]) then TrimStart(s[1..]) else s
  }

  /** s without its trailing blanks. */
  function TrimEnd(s: string): (r: string)
    ensures |r| <= |s| && r == s[..|r|]
    ensures forall k :: |r| <= k < |s| ==> IsBlank(s[k])
    ensures r != [] ==> !IsBlank(r[|r| - 1])
  {
    if s != [] && IsBlank(s[|s| - 1]) then TrimEnd(s[..|s| - 1]) else s
  }

  /**
   * String.trim(): the part of s between its leading and its trailing blanks.
   * The result starts at some offset i of s, everything before i and after the
   * result is blank, and the result neither starts nor ends with a blank.
   */
  function Trim(s: string): (r: string)
    ensures var t := TrimStart(s); |r| <= |t|
    ensures var i := |s| - |TrimStart(s)|;
      i + |r| <= |s|
      && r == s[i..i + |r|]
      && (forall k :: 0 <= k < i ==> IsBlank(s[k]))
      && (forall k :: i + |r| <= k < |s| ==> IsBlank(s[k]))
    ensures r != [] ==> !IsBlank(r[0]) && !IsBlank(r[|r| - 1])
  {
    TrimEnd(TrimStart(s))
  }

  /** A string in which nothing is blank is its own trim. */
  lemma TrimNoBlanks(s: string)
    requires forall k :: 0 <= k < |s| ==> !IsBlank(s[k])
    ensures Trim(s) == s
  {
  }

  /** The pieces of s that lie between '\n' characters, empty pieces included. */
  function Pieces(s: string): (r: seq<string>)
    ensures |r| >= 1
  {
    if s == [] then [[]]
    else
      var rest := Pieces(s[1..]);
      if s[0] == '\n' then [[]] + rest else [[s[0]] + rest[0]] + rest[1..]
  }

  /** The pieces put back together with '\n' between them. */
  function JoinLines(ps: seq<string>): (r: string)
    requires |ps| >= 1
  {
    if |ps| == 1 then ps[0] else ps[0] + "\n" + JoinLines(ps[1..])
  }

  /** Cutting at the newlines and joining again gives back the string; no piece holds a newline. */
  lemma {:induction false} PiecesJoin(s: string)
    ensures JoinLines(Pieces(s)) == s
    ensures forall i :: 0 <= i < |Pieces(s)| ==> '\n' !in Pieces(s)[i]
  {
    if s != [] {
      var rest := Pieces(s[1..]);
      PiecesJoin(s[1..]);
      if s[0] == '\n' {
        assert Pieces(s)[1..] == rest;
        assert s == "\n" + s[1..];
      } else if |rest| == 1 {
        assert Pieces(s) == [[s[0]] + rest[0]];
        assert s == [s[0]] + s[1..];
      } else {
        var ps := Pieces(s);
        assert ps[1..] == rest[1..];
        calc {
          JoinLines(ps);
          ([s[0]] + rest[0]) + "\n" + JoinLines(rest[1..]);
          [s[0]] + (rest[0] + "\n" + JoinLines(rest[1..]));
          [s[0]] + JoinLines(rest);
          s;
        }
      }
    }
  }

  /** ps without its trailing empty strings. */
  function DropTrailingEmpty(ps: seq<string>): (r: seq<string>)
    ensures |r| <= |ps| && r == ps[..|r|]
    ensures forall i :: |r| <= i < |ps| ==> ps[i] == []
    ensures r != [] ==> r[|r| - 1] != []
  {
    if ps != [] && ps[|ps| - 1] == [] then DropTrailingEmpty(ps[..|ps| - 1]) else ps
  }

  /**
   * Java's s.split("\\n") (limit 0): the pieces between newlines with the trailing
   * empty pieces removed; a string with no newline at all, the empty string
   * included, splits into the one-element array [s].
   */
  function SplitLines(s: string): (r: seq<string>) {
    if '\n' !in s then [s] else DropTrailingEmpty(Pieces(s))
  }

  /** The text of s before its first '\n' (all of s when it has none). */
  function FirstLine(s: string): (r: string)
    ensures |r| <= |s| && r == s[..|r|] && '\n' !in r
    ensures |r| < |s| ==> s[|r|] == '\n'
  {
    if s == [] || s[0] == '\n' then [] else [s[0]] + FirstLine(s[1..])
  }

  lemma {:induction false} PiecesFirst(s: string)
    ensures Pieces(s)[0] == FirstLine(s)
  {
    if s != [] && s[0] != '\n' {
      PiecesFirst(s[1..]);
    }
  }

  lemma {:induction false} PiecesAllEmpty(s: string)
    ensures (forall i :: 0 <= i < |Pieces(s)| ==> Pieces(s)[i] == [])
        <==> (forall k :: 0 <= k < |s| ==> s[k] == '\n')
  {
    if s != [] {
      PiecesAllEmpty(s[1..]);
      var rest := Pieces(s[1..]);
      if s[0] == '\n' {
        assert Pieces(s) == [[]] + rest;
        if forall k :: 0 <= k < |s[1..]| ==> s[1..][k] == '\n' {
          assert forall k :: 0 <= k < |s| ==> s[k] == '\n' by {
            forall k | 0 <= k < |s| ensures s[k] == '\n' {
              if k > 0 {
                assert s[k] == s[1..][k - 1];
              }
            }
          }
        } else {
          var k :| 0 <= k < |s[1..]| && s[1..][k] != '\n';
          assert s[k + 1] != '\n';
          var j :| 0 <= j < |rest| && rest[j] != [];
          assert Pieces(s)[j + 1] != [];
        }
      } else {
        assert Pieces(s)[0] != [];
        assert s[0] != '\n';
      }
    }
  }

  /** A non-empty split starts with the first line of the string. */
  lemma SplitFirst(s: string)
    ensures |SplitLines(s)| > 0 ==> SplitLines(s)[0] == FirstLine(s)
  {
    if '\n' in s {
      PiecesFirst(s);
    }
  }

  /** The split is empty exactly when s is a non-empty run of newlines. */
  lemma SplitEmpty(s: string)
    ensures SplitLines(s) == [] <==> (s != [] && forall k :: 0 <= k < |s| ==> s[k] == '\n')
  {
    if '\n' in s {
      var ps := Pieces(s);
      var r := DropTrailingEmpty(ps);
      PiecesAllEmpty(s);
      assert SplitLines(s) == r;
      if r != [] {
        assert ps[|r| - 1] != [];
        assert !(forall i :: 0 <= i < |ps| ==> ps[i] == []);
      } else {
        assert forall i :: 0 <= i < |ps| ==> ps[i] == [];
      }
    } else if s != [] {
      assert s[0] != '\n';
    }
  }

  /** No element of the split holds a newline. */
  lemma SplitNoNewline(s: string)
    ensures forall i :: 0 <= i < |SplitLines(s)| ==> '\n' !in SplitLines(s)[i]
  {
    if '\n' in s {
      PiecesJoin(s);
      var ps := Pieces(s);
      var r := DropTrailingEmpty(ps);
      assert forall i :: 0 <= i < |r| ==> r[i] == ps[i];
    }
  }

  /** The text of s before its first line terminator, '\n' or '\r'. */
  function LineBefore(s: string): (r: string)
    ensures |r| <= |s| && r == s[..|r|] && '\n' !in r && '\r' !in r
    ensures |r| < |s| ==> s[|r|] == '\n' || s[|r|] == '\r'
  {
    if s == [] || s[0] == '\n' || s[0] == '\r' then [] else [s[0]] + LineBefore(s[1..])
  }

  /**
   * BufferedReader.readLine() on a fresh reader over a file's content: null (None)
   * when the file is empty, otherwise the first line without its terminator.
   */
  function ReadLine(content: string): (r: Option<string>)
    ensures r.None? <==> content == []
    ensures r.Some? ==> r.value == LineBefore(content)
  {
    if content == [] then None else Some(LineBefore(content))
  }

  /** The line separator PrintWriter.println() writes (that of a Unix host). */
  const LINE_SEPARATOR := "\n"

  /** The content of a file after PrintWriter.println(x) on a freshly opened writer. */
  function Println(x: string): (r: string) {
    x + LINE_SEPARATOR
  }

  /**
   * Reading back a line written with println gives exactly the value written
   * if and only if the value holds no line terminator.
   */
  lemma ReadPrintln(x: string)
    ensures ReadLine(Println(x)) == Some(x) <==> ('\n' !in x && '\r' !in x)
  {
    var s := Println(x);
    var r := LineBefore(s);
    if '\n' !in x && '\r' !in x {
      assert s[|x|] == '\n';
      assert r == x;
    }
  }
}
