/**
  Parsing of the chat model's reply into scene strings (`split_into_scenes`,
  utils.py:51): the reply is cut at line feeds, lines that are whitespace
  only are dropped, and every other line loses its list-marker dashes and
  spaces at both ends and then its whitespace at both ends.

  The filter looks at the whitespace-stripped line, not at the cleaned
  value, so a line of dashes survives the filter and yields the empty scene.
 */
module Scenes {

  /** The characters Python's argument-less `str.strip()` removes (`str.isspace`). */
  const Whitespace: set<char> := {
    '\t', '\n', '\U{b}', '\U{c}', '\r',
    '\U{1c}', '\U{1d}', '\U{1e}', '\U{1f}', ' ',
    '\U{85}', '\U{a0}', '\U{1680}',
    '\U{2000}', '\U{2001}', '\U{2002}', '\U{2003}', '\U{2004}', '\U{2005}',
    '\U{2006}', '\U{2007}', '\U{2008}', '\U{2009}', '\U{200a}',
    '\U{2028}', '\U{2029}', '\U{202f}', '\U{205f}', '\U{3000}'
  }

  /** The characters of `strip("- ")`: list-marker dashes and spaces. */
  const ListMarker: set<char> := {'-', ' '}

  // ---------------------------------------------------------------------------
  // str.lstrip / str.rstrip / str.strip with an explicit character set
  // ---------------------------------------------------------------------------

  /** `s.lstrip(cs)`: removes the longest prefix made of characters of `cs`. */
  function LStrip(s: string, cs: set<char>): string
  {
    if s != [] && s[0] in cs then LStrip(s[1..], cs) else s
  }

  /** `s.rstrip(cs)`: removes the longest suffix made of characters of `cs`. */
  function RStrip(s: string, cs: set<char>): string
  {
    if s != [] && s[|s| - 1] in cs then RStrip(s[..|s| - 1], cs) else s
  }

  /** `lstrip` leaves a suffix of `s`, drops only characters of `cs`, and stops at the first other one. */
  lemma {:induction false} LStripShape(s: string, cs: set<char>)
    ensures |LStrip(s, cs)| <= |s| && LStrip(s, cs) == s[|s| - |LStrip(s, cs)|..]
    ensures forall k :: 0 <= k < |s| - |LStrip(s, cs)| ==> s[k] in cs
    ensures LStrip(s, cs) != [] ==> LStrip(s, cs)[0] !in cs
  {
    if s != [] && s[0] in cs {
      LStripShape(s[1..], cs);
    }
  }

  /** `rstrip` leaves a prefix of `s`, drops only characters of `cs`, and stops at the last other one. */
  lemma {:induction false} RStripShape(s: string, cs: set<char>)
    ensures |RStrip(s, cs)| <= |s| && RStrip(s, cs) == s[..|RStrip(s, cs)|]
    ensures forall k :: |RStrip(s, cs)| <= k < |s| ==> s[k] in cs
    ensures RStrip(s, cs) != [] ==> RStrip(s, cs)[|RStrip(s, cs)| - 1] !in cs
  {
    if s != [] && s[|s| - 1] in cs {
      RStripShape(s[..|s| - 1], cs);
    }
  }

  /** Python's `s.strip(cs)`. */
  function Strip(s: string, cs: set<char>): string
  {
    RStrip(LStrip(s, cs), cs)
  }

  /**
    What is left after `strip(cs)` neither starts nor ends with a character
    of `cs`, holds only characters of `s`, and is empty exactly when every
    character of `s` is in `cs`.
   */
  lemma StripShape(s: string, cs: set<char>)
    ensures Strip(s, cs) == [] <==> forall k :: 0 <= k < |s| ==> s[k] in cs
    ensures Strip(s, cs) != [] ==> Strip(s, cs)[0] !in cs && Strip(s, cs)[|Strip(s, cs)| - 1] !in cs
    ensures forall c :: c in Strip(s, cs) ==> c in s
  {
    var left := LStrip(s, cs);
    var r := RStrip(left, cs);
    LStripShape(s, cs);
    RStripShape(left, cs);
    var n := |s| - |left|;
    assert forall k :: n <= k < |s| ==> s[k] == left[k - n];
    assert forall k :: 0 <= k < |r| ==> r[k] == left[k];
    assert r != [] ==> r[0] == left[0] && left[0] !in cs;
    forall c | c in r ensures c in s {
      var k :| 0 <= k < |r| && r[k] == c;
      assert r[k] == s[n + k];
    }
  }

  // ---------------------------------------------------------------------------
  // str.split('\n') and its inverse '\n'.join
  // ---------------------------------------------------------------------------

  /** Python's `'\n'.join(lines)`. */
  function JoinLines(lines: seq<string>): string
  {
    if |lines| == 0 then []
    else if |lines| == 1 then lines[0]
    else lines[0] + "\n" + JoinLines(lines[1..])
  }

  /**
    Python's `s.split('\n')`: at least one piece, no piece holds a line
    break, and joining the pieces back with line breaks gives `s`.
   */
  function SplitLines(s: string): (lines: seq<string>)
    ensures |lines| >= 1
    ensures forall i :: 0 <= i < |lines| ==> '\n' !in lines[i]
    ensures JoinLines(lines) == s
  {
    if s == [] then [[]]
    else
      var rest := SplitLines(s[1..]);
      if s[0] == '\n' then
        assert ([[]] + rest)[1..] == rest;
        [[]] + rest
      else
        var lines := [[s[0]] + rest[0]] + rest[1..];
        assert lines[1..] == rest[1..];
        assert |rest| > 1 ==> JoinLines(rest) == rest[0] + "\n" + JoinLines(rest[1..]);
        lines
  }

  /** Splitting undoes joining whenever no piece holds a line break. */
  lemma {:induction false} SplitJoin(lines: seq<string>)
    requires |lines| >= 1
    requires forall i :: 0 <= i < |lines| ==> '\n' !in lines[i]
    ensures SplitLines(JoinLines(lines)) == lines
  {
    if |lines| == 1 {
      SplitLineFree(lines[0]);
    } else {
      SplitJoin(lines[1..]);
      SplitPrefix(lines[0], JoinLines(lines[1..]));
      assert [lines[0]] + lines[1..] == lines;
    }
  }

  /** A string without line breaks splits into itself. */
  lemma {:induction false} SplitLineFree(s: string)
    requires '\n' !in s
    ensures SplitLines(s) == [s]
  {
    if s != [] {
      assert '\n' !in s[1..] by {
        forall k | 0 <= k < |s[1..]| ensures s[1..][k] != '\n' { assert s[1..][k] == s[k + 1]; }
      }
      SplitLineFree(s[1..]);
      assert [s[0]] + s[1..] == s;
    }
  }

  /** Splitting `line + "\n" + rest` puts `line` in front of the pieces of `rest`. */
  lemma {:induction false} SplitPrefix(line: string, rest: string)
    requires '\n' !in line
    ensures SplitLines(line + "\n" + rest) == [line] + SplitLines(rest)
  {
    var s := line + "\n" + rest;
    if line == [] {
      assert s[1..] == rest;
    } else {
      assert s[1..] == line[1..] + "\n" + rest;
      assert '\n' !in line[1..] by {
        forall k | 0 <= k < |line[1..]| ensures line[1..][k] != '\n' { assert line[1..][k] == line[k + 1]; }
      }
      SplitPrefix(line[1..], rest);
      assert [line[0]] + line[1..] == line;
    }
  }

  /** The characters other than line breaks of a joined text are those of its pieces. */
  lemma {:induction false} JoinedCharacters(lines: seq<string>, c: char)
    requires c != '\n'
    ensures c in JoinLines(lines) <==> exists i :: 0 <= i < |lines| && c in lines[i]
  {
    if |lines| > 1 {
      JoinedCharacters(lines[1..], c);
      var tail := JoinLines(lines[1..]);
      assert JoinLines(lines) == lines[0] + "\n" + tail;
      assert c in lines[0] + "\n" + tail <==> c in lines[0] || c in tail;
      if c in tail {
        var i :| 0 <= i < |lines[1..]| && c in lines[1..][i];
        assert c in lines[i + 1];
      }
      if exists i :: 0 <= i < |lines| && c in lines[i] {
        var i :| 0 <= i < |lines| && c in lines[i];
        if i > 0 { assert c in lines[1..][i - 1]; }
      }
    }
  }

  // ---------------------------------------------------------------------------
  // The comprehension of split_into_scenes
  // ---------------------------------------------------------------------------

  /** `line.strip()` is falsy: the comprehension's filter drops the line. */
  predicate IsBlank(line: string)
  {
    Strip(line, Whitespace) == []
  }

  /** A line that holds some character other than whitespace. */
  ghost predicate HasVisibleChar(line: string)
  {
    exists k :: 0 <= k < |line| && line[k] !in Whitespace
  }

  /** The filter keeps exactly the lines that hold a visible character. */
  lemma BlankIffInvisible(line: string)
    ensures !IsBlank(line) <==> HasVisibleChar(line)
  {
    StripShape(line, Whitespace);
  }

  /** No line break inside, no whitespace at either end. */
  predicate Trimmed(scene: string)
  {
    '\n' !in scene && (scene != [] ==> scene[0] !in Whitespace && scene[|scene| - 1] !in Whitespace)
  }

  /** `line.strip("- ").strip()`. */
  function CleanLine(line: string): string
  {
    Strip(Strip(line, ListMarker), Whitespace)
  }

  /** A cleaned line is trimmed of whitespace and, like its line, free of line breaks. */
  lemma CleanLineTrimmed(line: string)
    requires '\n' !in line
    ensures Trimmed(CleanLine(line))
  {
    StripShape(line, ListMarker);
    StripShape(Strip(line, ListMarker), Whitespace);
  }

  /** The scenes the comprehension produces from `lines[i..]`. */
  function ScenesFrom(lines: seq<string>, i: nat): seq<string>
    decreases |lines| - i
  {
    if i >= |lines| then []
    else (if IsBlank(lines[i]) then [] else [CleanLine(lines[i])]) + ScenesFrom(lines, i + 1)
  }

  /** `split_into_scenes` after the chat call: `text` is the model's reply. */
  function SplitIntoScenes(text: string): seq<string>
  {
    ScenesFrom(SplitLines(text), 0)
  }

  /** The positions, from `i` on, of the lines that hold a visible character. */
  ghost function VisibleLines(lines: seq<string>, i: nat): (r: seq<nat>)
    ensures forall k :: 0 <= k < |r| ==> i <= r[k] < |lines|
    decreases |lines| - i
  {
    if i >= |lines| then []
    else (if HasVisibleChar(lines[i]) then [i] else []) + VisibleLines(lines, i + 1)
  }

  /** `VisibleLines` lists every such position from `i` on, each once, in increasing order. */
  lemma {:induction false} VisibleLinesExact(lines: seq<string>, i: nat)
    ensures forall k :: 0 <= k < |VisibleLines(lines, i)| ==>
              i <= VisibleLines(lines, i)[k] < |lines| && HasVisibleChar(lines[VisibleLines(lines, i)[k]])
    ensures forall k, m :: 0 <= k < m < |VisibleLines(lines, i)| ==> VisibleLines(lines, i)[k] < VisibleLines(lines, i)[m]
    ensures forall j :: i <= j < |lines| && HasVisibleChar(lines[j]) ==> j in VisibleLines(lines, i)
    decreases |lines| - i
  {
    if i < |lines| {
      VisibleLinesExact(lines, i + 1);
    }
  }

  /**
    The k-th scene is the cleaned k-th line that holds a visible character,
    so there are as many scenes as such lines, in the same order.
   */
  lemma {:induction false} ScenesAreCleanedLines(lines: seq<string>, i: nat)
    ensures |ScenesFrom(lines, i)| == |VisibleLines(lines, i)|
    ensures forall k :: 0 <= k < |ScenesFrom(lines, i)| ==>
              ScenesFrom(lines, i)[k] == CleanLine(lines[VisibleLines(lines, i)[k]])
    decreases |lines| - i
  {
    if i < |lines| {
      ScenesAreCleanedLines(lines, i + 1);
      BlankIffInvisible(lines[i]);
      var rest, restIndices := ScenesFrom(lines, i + 1), VisibleLines(lines, i + 1);
      if IsBlank(lines[i]) {
        assert ScenesFrom(lines, i) == rest;
        assert VisibleLines(lines, i) == restIndices;
      } else {
        assert ScenesFrom(lines, i) == [CleanLine(lines[i])] + rest;
        assert VisibleLines(lines, i) == [i] + restIndices;
      }
    }
  }

  /**
    The scenes of a reply are its cleaned lines that hold a visible
    character, in order and one for each such line.
   */
  lemma SceneCount(text: string)
    ensures |SplitIntoScenes(text)| == |VisibleLines(SplitLines(text), 0)|
    ensures forall k :: 0 <= k < |SplitIntoScenes(text)| ==>
              SplitIntoScenes(text)[k] == CleanLine(SplitLines(text)[VisibleLines(SplitLines(text), 0)[k]])
  {
    ScenesAreCleanedLines(SplitLines(text), 0);
  }

  /** No scene holds a line break or starts or ends with whitespace. */
  lemma ScenesTrimmed(text: string)
    ensures forall k :: 0 <= k < |SplitIntoScenes(text)| ==> Trimmed(SplitIntoScenes(text)[k])
  {
    var lines := SplitLines(text);
    var scenes := SplitIntoScenes(text);
    var indices := VisibleLines(lines, 0);
    ScenesAreCleanedLines(lines, 0);
    forall k | 0 <= k < |scenes| ensures Trimmed(scenes[k]) {
      var line := lines[indices[k]];
      assert scenes[k] == CleanLine(line) && '\n' !in line;
      CleanLineTrimmed(line);
    }
  }

  /**
    A line of dashes and spaces with at least one dash passes the filter
    (a dash is not whitespace) and cleans to the empty scene.
   */
  lemma DashLineYieldsEmptyScene(line: string)
    requires forall k :: 0 <= k < |line| ==> line[k] in ListMarker
    requires '-' in line
    ensures !IsBlank(line) && CleanLine(line) == []
  {
    var k :| 0 <= k < |line| && line[k] == '-';
    assert line[k] !in Whitespace;
    StripShape(line, ListMarker);
    StripShape(line, Whitespace);
  }

  /** A visible character anywhere in the reply makes at least one scene. */
  lemma VisibleCharGivesScene(text: string, k: nat)
    requires k < |text| && text[k] !in Whitespace
    ensures SplitIntoScenes(text) != []
  {
    var lines := SplitLines(text);
    ScenesAreCleanedLines(lines, 0);
    VisibleLinesExact(lines, 0);
    JoinedCharacters(lines, text[k]);
    var i :| 0 <= i < |lines| && text[k] in lines[i];
    var m :| 0 <= m < |lines[i]| && lines[i][m] == text[k];
    assert HasVisibleChar(lines[i]);
    assert i in VisibleLines(lines, 0);
  }

  /** A scene comes from a line holding a visible character of the reply. */
  lemma SceneGivesVisibleChar(text: string)
    requires SplitIntoScenes(text) != []
    ensures exists k :: 0 <= k < |text| && text[k] !in Whitespace
  {
    var lines := SplitLines(text);
    ScenesAreCleanedLines(lines, 0);
    VisibleLinesExact(lines, 0);
    var i := VisibleLines(lines, 0)[0];
    var m :| 0 <= m < |lines[i]| && lines[i][m] !in Whitespace;
    JoinedCharacters(lines, lines[i][m]);
    var k :| 0 <= k < |text| && text[k] == lines[i][m];
    assert text[k] !in Whitespace;
  }

  /** The reply yields no scene exactly when it consists of whitespace only. */
  lemma NoScenesIffWhitespace(text: string)
    ensures SplitIntoScenes(text) == [] <==> forall k :: 0 <= k < |text| ==> text[k] in Whitespace
  {
    if k :| 0 <= k < |text| && text[k] !in Whitespace {
      VisibleCharGivesScene(text, k);
    }
    if SplitIntoScenes(text) != [] {
      SceneGivesVisibleChar(text);
    }
  }
}
