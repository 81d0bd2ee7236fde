/** No built-in list touches the root's manifest, so it ships whatever the package says. */
module PackManifest {
  import opened Wrappers
  import opened Paths
  import opened Glob
  import opened Ignore
  import opened PackRules
  import opened PackWalk
  import opened PackLaws

  lemma {:induction false} LastCharMatches(pattern: string, name: string)
    requires SegmentMatch(pattern, name) && pattern != ""
    requires pattern[|pattern| - 1] != '*' && pattern[|pattern| - 1] != '?'
    ensures name != "" && name[|name| - 1] == pattern[|pattern| - 1]
    decreases |pattern| + |name|
  {
    if pattern[0] == '*' {
      if SegmentMatch(pattern[1..], name) {
        LastCharMatches(pattern[1..], name);
      } else {
        LastCharMatches(pattern, name[1..]);
      }
    } else if |pattern| > 1 {
      LastCharMatches(pattern[1..], name[1..]);
    } else {
      assert pattern[1..] == "" && name[1..] == "";
    }
  }

  lemma {:induction false} LengthMatches(pattern: string, name: string)
    requires SegmentMatch(pattern, name) && '*' !in pattern
    ensures |pattern| == |name|
  {
    if pattern != "" {
      assert pattern == [pattern[0]] + pattern[1..];
      LengthMatches(pattern[1..], name[1..]);
    }
  }

  /** A plain line whose first letter, length or last letter keeps it off the manifest. */
  predicate MissesManifest(line: string) {
    && line != "" && IsPlain(line) && line[0] !in "!/?" && line[|line| - 1] != '/'
    && if line[0] == '*' then '/' !in line && line[|line| - 1] !in "*?n"
       else line[0] != 'p' || (|line| > |MANIFEST| && '*' !in line && '/' !in line)
  }

  lemma MissedLineSaysNothing(g: Library, line: string)
    requires ReadsPlain(g) && MissesManifest(line)
    ensures LineSays(g, MANIFEST, line).None?
  {
    hide MatchesIgnorePattern, ReadsPlain, IsPlain, LastSlash;
    assert Base(MANIFEST) == MANIFEST by { ManifestHasNoSlash(); }
    assert !HasPrefix(line, "!") && !HasPrefix(line, "/") && !HasSuffix(line, "/");
    MissedLineMatchesNothing(g, line);
  }

  lemma ManifestHasNoSlash()
    ensures '/' !in MANIFEST && Base(MANIFEST) == MANIFEST && Dir(MANIFEST) == "."
  {
    assert LastSlash(MANIFEST) == -1;
  }

  lemma MissedLineMatchesNothing(g: Library, line: string)
    requires ReadsPlain(g) && MissesManifest(line)
    ensures !MatchesIgnorePattern(g, MANIFEST, MANIFEST, line, false, false)
  {
    hide Split, SegmentsMatch, IsPlain;
    if HasSuffix(line, "/**") {
      var prefix := TrimSuffix(line, "/**");
      assert '/' in line by { assert line[|line| - 3..][0] == '/'; }
      assert line == prefix + "/**";
      NotUnder(prefix);
    } else {
      NotUnder(line);
      assert MANIFEST != line;
      GlobMissesManifest(g, line);
    }
  }

  lemma NotUnder(dir: string)
    ensures !HasPrefix(MANIFEST, dir + "/")
  {
    PrefixHasSlash(MANIFEST, dir);
  }

  lemma PrefixHasSlash(s: string, dir: string)
    ensures HasPrefix(s, dir + "/") ==> '/' in s
  {
    assert (dir + "/")[|dir|] == '/';
    assert HasPrefix(s, dir + "/") ==> s[..|dir| + 1][|dir|] == s[|dir|];
  }

  lemma GlobMissesManifest(g: Library, line: string)
    requires ReadsPlain(g) && MissesManifest(line)
    ensures g(line, MANIFEST) != Yes
  {
    hide SegmentsMatch, Split, SegmentMatch;
    assert '/' !in MANIFEST;
    if SegmentsMatch(Split(line), Split(MANIFEST)) {
      SplitSingle(MANIFEST);
      FirstSegment(line);
      OneName(Split(line), MANIFEST);
      var first := Split(line)[0];
      if line[0] == '*' {
        SplitSingle(line);
        LastCharMatches(line, MANIFEST);
      } else if line[0] != 'p' {
        FirstCharMatches(first, MANIFEST);
      } else {
        SplitSingle(line);
        LengthMatches(line, MANIFEST);
      }
    }
  }

  lemma FirstSegment(line: string)
    requires line != "" && line[0] != '/'
    ensures Split(line)[0] != "" && Split(line)[0][0] == line[0]
    ensures '/' !in line ==> Split(line) == [line]
  {
  }

  lemma OneName(ps: seq<string>, name: string)
    requires ps != [] && ps[0] != "**" && SegmentsMatch(ps, [name])
    ensures SegmentMatch(ps[0], name)
  {
  }

  lemma FirstCharMatches(pattern: string, name: string)
    requires pattern != "" && pattern[0] != '*' && pattern[0] != '?' && SegmentMatch(pattern, name)
    ensures name != "" && pattern[0] == name[0]
  {
  }

  lemma {:induction false} SilentLines(g: Library, path: string, lines: seq<string>, sofar: bool)
    requires forall i :: 0 <= i < |lines| ==> LineSays(g, path, lines[i]).None?
    ensures LastWord(g, path, lines, sofar) == sofar
  {
    hide LineSays;
    if lines != [] { SilentLines(g, path, lines[..|lines| - 1], sofar); }
  }

  /** MissesManifest of a line as the lists spell it, before it is lowered. */
  predicate SpellingMisses(line: string) {
    && line != "" && IsPlain(line) && line[0] !in "!/?" && line[|line| - 1] != '/'
    && if line[0] == '*' then '/' !in line && LowerChar(line[|line| - 1]) !in "*?n"
       else LowerChar(line[0]) != 'p' || (|line| > |MANIFEST| && '*' !in line && '/' !in line)
  }

  /** A line as the lists spell it that matches no name ".npmignore", in any casing. */
  predicate SparesNpmIgnore(line: string) {
    && line != "" && line[0] !in "!/?" && line[|line| - 1] != '/'
    && ('/' in line ==> |line| > 3 && line[|line| - 3] == '/' && line[|line| - 2] == '*' && line[|line| - 1] == '*'
                        && LowerChar(line[|line| - 4]) != 'e')
    && if line[0] == '*' then '/' !in line && LowerChar(line[|line| - 1]) !in "*?e"
       else '/' in line || line[0] != '.' || ('*' !in line && |line| != 10)
            || (|line| > 1 && LowerChar(line[1]) !in "n*?")
  }

  lemma LoweredMisses(line: string)
    requires SpellingMisses(line)
    ensures MissesManifest(Lower(line))
  {
    var l := Lower(line);
    assert forall c: char :: c in "!/?*" ==> LowerChar(c) == c;
    assert forall i :: 0 <= i < |l| ==> l[i] == LowerChar(line[i]);
    assert forall i :: 0 <= i < |l| ==> line[i] in line;
    assert forall c: char, d: char :: LowerChar(c) == d && d in "!/?*" ==> c == d;
  }

  lemma ReservedMiss0(i: nat)
    requires 0 <= i < 5
    ensures SpellingMisses(HARD_RESERVED[i]) && SparesNpmIgnore(HARD_RESERVED[i])
  {
  }

  lemma ReservedMiss5(i: nat)
    requires 5 <= i < 10
    ensures SpellingMisses(HARD_RESERVED[i]) && SparesNpmIgnore(HARD_RESERVED[i])
  {
  }

  lemma ReservedMiss10(i: nat)
    requires 10 <= i < 15
    ensures SpellingMisses(HARD_RESERVED[i]) && SparesNpmIgnore(HARD_RESERVED[i])
  {
  }

  lemma ReservedMiss15(i: nat)
    requires 15 <= i < 20
    ensures SpellingMisses(HARD_RESERVED[i]) && SparesNpmIgnore(HARD_RESERVED[i])
  {
  }

  lemma ReservedMiss20(i: nat)
    requires 20 <= i < 24
    ensures SpellingMisses(HARD_RESERVED[i]) && SparesNpmIgnore(HARD_RESERVED[i])
  {
  }

  lemma ReservedMiss24(i: nat)
    requires 24 <= i < 27
    ensures SpellingMisses(HARD_RESERVED[i]) && SparesNpmIgnore(HARD_RESERVED[i])
  {
  }

  lemma DefaultsMiss(i: nat)
    requires i < |DEFAULT_EXCLUDES|
    ensures SpellingMisses(DEFAULT_EXCLUDES[i])
  {
  }

  lemma ListsMissManifest()
    ensures forall i :: 0 <= i < |HARD_RESERVED| ==> MissesManifest(Lower(HARD_RESERVED[i]))
    ensures forall i :: 0 <= i < |DEFAULT_EXCLUDES| ==> MissesManifest(Lower(DEFAULT_EXCLUDES[i]))
  {
    hide MissesManifest, SpellingMisses;
    forall i | 0 <= i < |HARD_RESERVED| ensures MissesManifest(Lower(HARD_RESERVED[i])) {
      if i < 5 { ReservedMiss0(i); } else if i < 10 { ReservedMiss5(i); } else if i < 15 { ReservedMiss10(i); }
      else if i < 20 { ReservedMiss15(i); } else if i < 24 { ReservedMiss20(i); } else { ReservedMiss24(i); }
      LoweredMisses(HARD_RESERVED[i]);
    }
    forall i | 0 <= i < |DEFAULT_EXCLUDES| ensures MissesManifest(Lower(DEFAULT_EXCLUDES[i])) {
      DefaultsMiss(i);
      LoweredMisses(DEFAULT_EXCLUDES[i]);
    }
  }

  // ---------------------------------------------------------------- an ignore file's own name

  const NPM_IGNORE := ".npmignore"

  lemma ReservedSpareNpmIgnore()
    ensures forall i :: 0 <= i < |HARD_RESERVED| ==>
              SparesNpmIgnore(Lower(HARD_RESERVED[i])) && IsPlain(Lower(HARD_RESERVED[i]))
  {
    hide MissesManifest, SpellingMisses, SparesNpmIgnore, IsPlain;
    ListsMissManifest();
    forall i | 0 <= i < |HARD_RESERVED|
      ensures SparesNpmIgnore(Lower(HARD_RESERVED[i])) && IsPlain(Lower(HARD_RESERVED[i]))
    {
      if i < 5 { ReservedMiss0(i); } else if i < 10 { ReservedMiss5(i); } else if i < 15 { ReservedMiss10(i); }
      else if i < 20 { ReservedMiss15(i); } else if i < 24 { ReservedMiss20(i); } else { ReservedMiss24(i); }
      LoweredSpares(HARD_RESERVED[i]);
      MissesArePlain(Lower(HARD_RESERVED[i]));
    }
  }

  lemma MissesArePlain(line: string)
    requires MissesManifest(line)
    ensures IsPlain(line)
  {
  }

  lemma LoweredSpares(line: string)
    requires SparesNpmIgnore(line)
    ensures SparesNpmIgnore(Lower(line))
  {
    var l := Lower(line);
    assert forall c: char :: c in "!/?*." ==> LowerChar(c) == c;
    assert forall c: char :: LowerChar(LowerChar(c)) == LowerChar(c);
    assert forall i :: 0 <= i < |l| ==> l[i] == LowerChar(line[i]);
    assert forall i :: 0 <= i < |l| ==> line[i] in line;
    assert forall c: char, d: char :: LowerChar(c) == d && d in "!/?*." ==> c == d;
  }

  lemma NameMissed(g: Library, line: string)
    requires ReadsPlain(g) && IsPlain(line) && SparesNpmIgnore(line) && '/' !in line && Lower(line) == line
    ensures g(line, NPM_IGNORE) != Yes
  {
    hide SegmentsMatch, Split, SegmentMatch, Lower;
    assert '/' !in NPM_IGNORE;
    assert forall i :: 0 <= i < |line| ==> Lower(line)[i] == line[i];
    if SegmentsMatch(Split(line), Split(NPM_IGNORE)) {
      SplitSingle(NPM_IGNORE);
      SplitSingle(line);
      OneName(Split(line), NPM_IGNORE);
      if line[0] == '*' {
        LastCharMatches(line, NPM_IGNORE);
      } else if line[0] != '.' {
        FirstCharMatches(line, NPM_IGNORE);
      } else if |line| > 1 && line[1] !in "n*?" {
        SecondCharMatches(line, NPM_IGNORE);
      } else {
        LengthMatches(line, NPM_IGNORE);
      }
    }
  }

  lemma SecondCharMatches(pattern: string, name: string)
    requires |pattern| > 1 && pattern[0] !in "*?" && pattern[1] !in "*?" && SegmentMatch(pattern, name)
    ensures |name| > 1 && pattern[1] == name[1]
  {
    assert SegmentMatch(pattern[1..], name[1..]);
    assert pattern[1..] != "" && pattern[1..][0] == pattern[1];
  }

  /** A line of the hard-reserved list that speaks of a directory's npm ignore file speaks of
      the directory. */
  lemma SpeaksOfTheDirectory(g: Library, d: string, p: string, line: string)
    requires ReadsPlain(g) && IsPlain(line) && SparesNpmIgnore(line) && Lower(line) == line
    requires p == d + "/" + NPM_IGNORE && LineSays(g, p, line).Some?
    ensures LineSays(g, d, line) == Some(true)
  {
    hide ReadsPlain, IsPlain, Lower, SparesNpmIgnore, LineSays, Base, HasPrefix, HasSuffix, TrimSuffix;
    PlainLineSays(g, p, line);
    PlainLineSays(g, d, line);
    BaseOfChildren(d, NPM_IGNORE);
    if HasSuffix(line, "/**") {
      var stem := TrimSuffix(line, "/**");
      StemDiffers(line, stem, p);
      HigherUp(d, NPM_IGNORE, stem);
    } else {
      LastOf(line, p);
      NameMissed(g, line);
      HigherUp(d, NPM_IGNORE, line);
    }
  }

  lemma PlainLineSays(g: Library, path: string, line: string)
    requires SparesNpmIgnore(line)
    ensures LineSays(g, path, line) == if MatchesIgnorePattern(g, path, Base(path), line, false,
              false) then Some(true) else None
  {
    hide MatchesIgnorePattern, SparesNpmIgnore;
    PlainLine(line);
    assert !HasPrefix(line, "!") && !HasPrefix(line, "/") && !HasSuffix(line, "/");
  }

  lemma PlainLine(line: string)
    requires SparesNpmIgnore(line)
    ensures line != "" && line[0] != '!' && line[0] != '/' && line[|line| - 1] != '/'
    ensures '/' in line ==> HasSuffix(line, "/**")
  {
  }

  lemma BaseOfChildren(d: string, name: string)
    requires '/' !in name
    ensures Base(d + "/" + name) == name
  {
    var p := d + "/" + name;
    assert p[|d|] == '/' && forall k :: |d| < k < |p| ==> p[k] == name[k - |d| - 1];
    assert LastSlash(p) == |d|;
  }

  lemma StemDiffers(line: string, stem: string, p: string)
    requires SparesNpmIgnore(line) && HasSuffix(line, "/**") && stem == TrimSuffix(line, "/**") && Lower(line) == line
    requires p != "" && p[|p| - 1] == 'e'
    ensures stem != p
  {
    assert line[|line| - 3..][0] == '/';
    assert '/' in line;
    assert stem != "" ==> stem[|stem| - 1] == line[|line| - 4] == Lower(line)[|line| - 4];
  }

  lemma LastOf(line: string, p: string)
    requires SparesNpmIgnore(line) && !HasSuffix(line, "/**") && '/' in p
    ensures '/' !in line && line != p
  {
    PlainLine(line);
  }

  /** What stands above a child stands above its directory, or is it. */
  lemma HigherUp(d: string, name: string, dir: string)
    requires HasPrefix(d + "/" + name, dir + "/") && '/' !in name
    ensures Under(d, dir)
  {
    var p := d + "/" + name;
    assert p[|dir|] == (dir + "/")[|dir|] == '/';
    assert p[..|dir| + 1] == dir + "/";
    assert forall k :: |d| < k < |p| ==> p[k] == name[k - |d| - 1];
    assert |dir| <= |d|;
    assert d[..|dir|] == p[..|dir|] == dir;
    if |dir| < |d| { assert d[..|dir| + 1] == p[..|dir| + 1]; }
  }

  /** An npm ignore file is hard-reserved only if its directory is. */
  lemma NpmIgnoreIsNotReserved(g: Library, d: string)
    requires ReadsPlain(g) && !IsHardReserved(g, d)
    ensures !IsHardReserved(g, d + "/" + NPM_IGNORE)
  {
    hide LineSays, LastWord, SparesNpmIgnore, IsPlain, ReadsPlain;
    ReservedSpareNpmIgnore();
    var p, lines := d + "/" + NPM_IGNORE, LowerAll(HARD_RESERVED);
    assert Lower(p) == Lower(d) + "/" + NPM_IGNORE;
    if IsHardReserved(g, p) {
      var i := SomeLineSpeaks(g, Lower(p), lines);
      LowerIsLower(HARD_RESERVED[i]);
      SpeaksOfTheDirectory(g, Lower(d), Lower(p), lines[i]);
      forall j | 0 <= j < |lines| ensures lines[j] != "" && lines[j][0] != '!' { PlainLine(lines[j]); }
      NoLineReadmits(g, Lower(d), lines);
      LastWordHolds(g, Lower(d), lines, i);
    }
  }

  lemma LowerIsLower(s: string)
    ensures Lower(Lower(s)) == Lower(s)
  {
  }

  lemma {:induction false} SomeLineSpeaks(g: Library, path: string, lines: seq<string>) returns (i: nat)
    requires LastWord(g, path, lines, false)
    ensures i < |lines| && LineSays(g, path, lines[i]) == Some(true)
  {
    hide LineSays;
    i := |lines| - 1;
    if LineSays(g, path, lines[i]).None? { i := SomeLineSpeaks(g, path, lines[..i]); }
  }

  lemma NoLineReadmits(g: Library, path: string, lines: seq<string>)
    requires forall i :: 0 <= i < |lines| ==> lines[i] != "" && lines[i][0] != '!'
    ensures forall i :: 0 <= i < |lines| ==> LineSays(g, path, lines[i]) != Some(false)
  {
    hide LineSays;
    forall i | 0 <= i < |lines|
      ensures LineSays(g, path, lines[i]) != Some(false)
    {
      OnlyNegationsReadmit(g, path, lines[i]);
    }
  }

  /** A line that excludes, among lines none of which re-includes, has the last word. */
  lemma {:induction false} LastWordHolds(g: Library, path: string, lines: seq<string>, i: nat)
    requires i < |lines| && LineSays(g, path, lines[i]) == Some(true)
    requires forall j :: 0 <= j < |lines| ==> LineSays(g, path, lines[j]) != Some(false)
    ensures LastWord(g, path, lines, false)
  {
    hide LineSays;
    var n := |lines| - 1;
    if i < n { LastWordHolds(g, path, lines[..n], i); }
  }

  lemma {:induction false} NameMatchesItself(name: string)
    requires '*' !in name
    ensures SegmentMatch(name, name)
  {
    if name != "" {
      assert name == [name[0]] + name[1..];
      NameMatchesItself(name[1..]);
    }
  }

  /** An npm ignore file below the root is default-excluded. */
  lemma NpmIgnoreIsDefaultExcluded(g: Library, d: string)
    requires ReadsPlain(g)
    ensures IsDefaultExcluded(g, d + "/" + NPM_IGNORE)
  {
    hide LineSays, LastWord, MissesManifest, SegmentsMatch, Split;
    var p, lines := d + "/" + NPM_IGNORE, LowerAll(DEFAULT_EXCLUDES);
    assert Lower(p) == Lower(d) + "/" + NPM_IGNORE;
    assert lines[0] == NPM_IGNORE by { assert Lower(NPM_IGNORE) == NPM_IGNORE; }
    ListsMissManifest();
    forall j | 0 <= j < |lines| ensures lines[j] != "" && lines[j][0] != '!' { MissedLineStarts(lines[j]); }
    NoLineReadmits(g, Lower(p), lines);
    NpmIgnoreSays(g, Lower(d));
    LastWordHolds(g, Lower(p), lines, 0);
  }

  lemma MissedLineStarts(line: string)
    requires MissesManifest(line)
    ensures line != "" && line[0] != '!'
  {
  }

  lemma NpmIgnoreSays(g: Library, d: string)
    requires ReadsPlain(g)
    ensures LineSays(g, d + "/" + NPM_IGNORE, NPM_IGNORE) == Some(true)
  {
    hide SegmentsMatch, Split, ReadsPlain;
    assert '/' !in NPM_IGNORE;
    BaseOfChildren(d, NPM_IGNORE);
    assert g(NPM_IGNORE, NPM_IGNORE) == Yes by {
      NameMatchesItself(NPM_IGNORE);
      SplitSingle(NPM_IGNORE);
      SingleSegment(NPM_IGNORE, NPM_IGNORE);
      PlainlyYes(g, NPM_IGNORE);
    }
    assert NPM_IGNORE[..1] == "." && !HasPrefix(NPM_IGNORE, "!") && !HasPrefix(NPM_IGNORE, "/");
    assert !HasSuffix(NPM_IGNORE, "/") && !HasSuffix(NPM_IGNORE, "/**");
  }

  lemma PlainlyYes(g: Library, name: string)
    requires ReadsPlain(g) && IsPlain(name) && SegmentsMatch(Split(name), Split(name))
    ensures g(name, name) == Yes
  {
  }

  lemma ManifestIsNotBuiltIn(g: Library)
    requires ReadsPlain(g)
    ensures !IsHardReserved(g, MANIFEST) && !IsDefaultExcluded(g, MANIFEST)
  {
    hide MissesManifest, LineSays, LastWord;
    assert Lower(MANIFEST) == MANIFEST;
    ListsMissManifest();
    forall i | 0 <= i < |HARD_RESERVED| ensures LineSays(g, MANIFEST, LowerAll(HARD_RESERVED)[i]).None? {
      MissedLineSaysNothing(g, Lower(HARD_RESERVED[i]));
    }
    forall i | 0 <= i < |DEFAULT_EXCLUDES| ensures LineSays(g, MANIFEST, LowerAll(DEFAULT_EXCLUDES)[i]).None? {
      MissedLineSaysNothing(g, Lower(DEFAULT_EXCLUDES[i]));
    }
    SilentLines(g, MANIFEST, LowerAll(HARD_RESERVED), false);
    SilentLines(g, MANIFEST, LowerAll(DEFAULT_EXCLUDES), false);
  }

  /** The root's manifest ships from every pack that succeeds, whatever the ignore files, the
      "files" field and "main" say. */
  lemma ManifestAlwaysShips(rules: Rules, es: seq<Entry>)
    requires ReadsPlain(rules.g) && IsNamedWell(es) && Leaf(MANIFEST, Regular) in Leaves(".", es)
    requires Collected(rules, Folder(es)).Some?
    ensures MANIFEST in Collected(rules, Folder(es)).value
  {
    hide IsHardReserved, IsDefaultExcluded, Leaves, Excludes;
    ManifestIsNotBuiltIn(rules.g);
    ShippedMembers(rules, Leaves(".", es), MANIFEST);
    ManifestHasNoSlash();
    assert SelfAndAbove(".") == [];
  }
}
