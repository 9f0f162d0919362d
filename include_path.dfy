/**
 * Include-path escaping for the kernel build (tsp_cl_full.py, __init__,
 * lines 29-34): each include directory becomes "-I " followed by the path
 * with every space escaped, by "^ " on Windows and by "\ " elsewhere.
 */
module IncludePath {

  /** `sys.platform.startswith('win')`. */
  predicate IsWindows(platform: string): (b: bool)
    ensures b <==> "win" <= platform
  {
    |platform| >= 3 && platform[..3] == "win"
  }

  /** The character put before each space. */
  function EscapeChar(platform: string): char
  {
    if IsWindows(platform) then '^' else '\\'
  }

  /** The number of spaces in s. */
  function Spaces(s: string): nat
  {
    if s == [] then 0 else (if s[0] == ' ' then 1 else 0) + Spaces(s[1..])
  }

  /**
   * `path.replace(' ', esc + ' ')`: every space gains one escape character
   * before it, so the path grows by one character per space.
   */
  function Escape(path: string, esc: char): (r: string)
    ensures |r| == |path| + Spaces(path)
  {
    if path == [] then []
    else (if path[0] == ' ' then [esc, ' '] else [path[0]]) + Escape(path[1..], esc)
  }

  /** Reads an escaped path back: esc followed by a space stands for a space. */
  function Unescape(s: string, esc: char): string
    decreases |s|
  {
    if s == [] then []
    else if |s| >= 2 && s[0] == esc && s[1] == ' ' then [' '] + Unescape(s[2..], esc)
    else [s[0]] + Unescape(s[1..], esc)
  }

  const IncludePrefix := "-I "

  /** One build option for one include directory. */
  function Flag(path: string, platform: string): string
  {
    IncludePrefix + Escape(path, EscapeChar(platform))
  }

  /** The include directories of the kernel build. */
  const KernelIncludeDirs: seq<string> := ["kernel"]

  /** The loop building `modifiedlstPath`: one flag per directory, in order. */
  method IncludeOptions(paths: seq<string>, platform: string) returns (flags: seq<string>)
    ensures |flags| == |paths|
    ensures forall i :: 0 <= i < |paths| ==> flags[i] == Flag(paths[i], platform)
  {
    flags := [];
    for i := 0 to |paths|
      invariant |flags| == i
      invariant forall j :: 0 <= j < i ==> flags[j] == Flag(paths[j], platform)
    {
      var esc := if IsWindows(platform) then '^' else '\\';
      var escapedPath := Escape(paths[i], esc);
      flags := flags + [IncludePrefix + escapedPath];
    }
  }

  /** An escaped path never starts with a space. */
  lemma EscapeHead(path: string, esc: char)
    requires path != [] && esc != ' '
    ensures Escape(path, esc) != [] && Escape(path, esc)[0] != ' '
  {
  }

  /** Escaping loses nothing: the escaped path reads back as the path. */
  lemma {:induction false} EscapeRoundTrip(path: string, esc: char)
    requires esc != ' '
    ensures Unescape(Escape(path, esc), esc) == path
  {
    if path != [] {
      var rest := Escape(path[1..], esc);
      EscapeRoundTrip(path[1..], esc);
      if path[0] == ' ' {
        assert Escape(path, esc) == [esc, ' '] + rest;
        UnescapeSpace(rest, esc);
      } else {
        assert Escape(path, esc) == [path[0]] + rest;
        if rest != [] {
          EscapeHead(path[1..], esc);
        }
        UnescapeOther(path[0], rest, esc);
      }
      assert path == [path[0]] + path[1..];
    }
  }

  lemma UnescapeSpace(rest: string, esc: char)
    ensures Unescape([esc, ' '] + rest, esc) == [' '] + Unescape(rest, esc)
  {
    assert ([esc, ' '] + rest)[2..] == rest;
  }

  lemma UnescapeOther(c: char, rest: string, esc: char)
    requires c != esc || rest == [] || rest[0] != ' '
    ensures Unescape([c] + rest, esc) == [c] + Unescape(rest, esc)
  {
    assert ([c] + rest)[1..] == rest;
  }

  /**
   * Escaping adds one escape character per space and changes no other
   * character's count.
   */
  lemma {:induction false} EscapeCounts(path: string, esc: char, c: char)
    requires esc != ' '
    ensures multiset(Escape(path, esc))[c]
      == multiset(path)[c] + (if c == esc then multiset(path)[' '] else 0)
  {
    if path != [] {
      EscapeCounts(path[1..], esc, c);
      assert path == [path[0]] + path[1..];
    }
  }

  /** Escaping a path without spaces changes nothing. */
  lemma {:induction false} EscapeNoSpaces(path: string, esc: char)
    requires ' ' !in path
    ensures Escape(path, esc) == path
  {
    if path != [] {
      assert ' ' !in path[1..];
      EscapeNoSpaces(path[1..], esc);
    }
  }

  /** Every space of the escaped path stands right after the escape character. */
  lemma {:induction false} EscapeGuardsSpaces(path: string, esc: char)
    requires esc != ' '
    ensures forall k :: 0 <= k < |Escape(path, esc)| && Escape(path, esc)[k] == ' ' ==>
      k > 0 && Escape(path, esc)[k - 1] == esc
  {
    if path != [] {
      EscapeGuardsSpaces(path[1..], esc);
      var head := if path[0] == ' ' then [esc, ' '] else [path[0]];
      var rest := Escape(path[1..], esc);
      assert Escape(path, esc) == head + rest;
      forall k | 0 <= k < |head + rest| && (head + rest)[k] == ' '
        ensures k > 0 && (head + rest)[k - 1] == esc
      {
        if k >= |head| {
          assert rest[k - |head|] == ' ';
        }
      }
    }
  }

  /** The kernel's own include directory has no space: its flag is "-I kernel". */
  lemma KernelFlag(platform: string)
    ensures Flag(KernelIncludeDirs[0], platform) == "-I kernel"
  {
    var dir := KernelIncludeDirs[0];
    assert ' ' !in dir;
    FlagWithoutSpaces(dir, platform);
  }

  lemma FlagWithoutSpaces(path: string, platform: string)
    requires ' ' !in path
    ensures Flag(path, platform) == IncludePrefix + path
  {
    EscapeNoSpaces(path, EscapeChar(platform));
  }
}
