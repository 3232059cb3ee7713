/** Where an entry's audio goes, and the operator's decision when a file
    is already there. */
module Conflict {

  /** The fixed export directory, relative to the working directory. */
  const ExportDir: string := "exports"

  predicate IsAbsolute(name: string)
  {
    |name| > 0 && name[0] == '/'
  }

  /** Joining two path components as POSIX os.path.join does: an absolute
      second component replaces the first; otherwise a separator is inserted
      unless the first is empty or already ends in one. */
  function JoinPath(dir: string, name: string): string
  {
    if IsAbsolute(name) then name
    else if dir == "" || dir[|dir| - 1] == '/' then dir + name
    else dir + "/" + name
  }

  /** The joined path ends with the name. An absolute name stands alone.
      A relative name follows the directory, separated from it by exactly
      one '/' (the directory's own trailing one or an inserted one). */
  lemma JoinPathShape(dir: string, name: string)
    ensures var p := JoinPath(dir, name);
            && |name| <= |p| && p[|p| - |name|..] == name
            && (IsAbsolute(name) ==> p == name)
            && (!IsAbsolute(name) ==> p[..|dir|] == dir)
            && (!IsAbsolute(name) && (dir == "" || dir[|dir| - 1] == '/') ==> |p| == |dir| + |name|)
            && (!IsAbsolute(name) && dir != "" && dir[|dir| - 1] != '/' ==> |p| == |dir| + 1 + |name| && p[|dir|] == '/')
  {
  }

  /** The file an entry with output name `wavName` is written to. */
  function OutputPath(wavName: string): (p: string)
    ensures IsAbsolute(wavName) ==> p == wavName
    ensures !IsAbsolute(wavName) ==> p == ExportDir + "/" + wavName
  {
    JoinPath(ExportDir, wavName)
  }

  /** Distinct output names never share a file. */
  lemma OutputPathInjective(a: string, b: string)
    requires a != b
    ensures OutputPath(a) != OutputPath(b)
  {
    var pre := ExportDir + "/";
    assert |pre| == 8;
    if !IsAbsolute(a) && !IsAbsolute(b) {
      assert OutputPath(a) == pre + a && OutputPath(b) == pre + b;
      assert (pre + a)[8..] == a && (pre + b)[8..] == b;
    } else if !IsAbsolute(a) && IsAbsolute(b) {
      assert OutputPath(a)[0] == 'e' != '/' == OutputPath(b)[0];
    } else if IsAbsolute(a) && !IsAbsolute(b) {
      assert OutputPath(b)[0] == 'e' != '/' == OutputPath(a)[0];
    }
  }

  /** Lower-casing of one character (ASCII letters only). */
  function LowerChar(ch: char): char
  {
    if 'A' <= ch <= 'Z' then (ch as int - 'A' as int + 'a' as int) as char else ch
  }

  /** str.lower(), character by character. */
  function Lower(s: string): (r: string)
    ensures |r| == |s|
    ensures forall k :: 0 <= k < |s| ==> r[k] == LowerChar(s[k])
  {
    if s == [] then [] else [LowerChar(s[0])] + Lower(s[1..])
  }

  /** The operator's answer authorises overwriting an existing file only when
      it lower-cases to exactly "y": that is, when it is "y" or "Y". */
  predicate AuthorisesOverwrite(answer: string): (ok: bool)
    ensures ok <==> answer == "y" || answer == "Y"
  {
    Lower(answer) == "y"
  }

  /** Typical non-affirmative answers, the empty default included, decline. */
  lemma CommonAnswersDecline()
    ensures !AuthorisesOverwrite("")
    ensures !AuthorisesOverwrite("n")
    ensures !AuthorisesOverwrite("N")
    ensures !AuthorisesOverwrite("yes")
    ensures !AuthorisesOverwrite(" y")
  {
  }
}
