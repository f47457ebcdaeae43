/** The path validators of the guest protocol, the guest agent, the node agent,
    the job model and the browser, and what they accept. */
module Paths {
  import opened Basics
  import opened Texts

  /* ---- posix.normalize ---- */

  /** One more segment on the stack of a lexical resolution: empty and "."
      segments vanish, ".." takes the last one back, or stays when there is
      nothing to take back and `above` allows it. */
  function Push(stack: seq<string>, segment: string, above: bool): seq<string> {
    if segment == "" || segment == "." then stack
    else if segment == ".." then
      if stack != [] && stack[|stack| - 1] != ".." then stack[..|stack| - 1]
      else if above then stack + [".."]
      else stack
    else stack + [segment]
  }

  function Resolve(stack: seq<string>, segments: seq<string>, above: bool): seq<string>
    decreases |segments|
  {
    if segments == [] then stack else Resolve(Push(stack, segments[0], above), segments[1..], above)
  }

  function Normalize(path: string): string {
    if path == "" then "."
    else
      var absolute, trailing := path[0] == '/', path[|path| - 1] == '/';
      var joined := Join(Resolve([], Split(path, '/'), !absolute), '/');
      if joined == "" && !absolute then (if trailing then "./" else ".")
      else (if absolute then "/" else "") + joined + (if trailing && joined != "" then "/" else "")
  }

  predicate StartsWith(s: string, prefix: string) {
    prefix <= s
  }

  predicate EndsWith(s: string, suffix: string) {
    |suffix| <= |s| && s[|s| - |suffix|..] == suffix
  }

  /* ---- The validators ---- */

  const NUL: char := '\0'

  /** The guest protocol: normalise and compare. */
  predicate IsSafeWorkspacePath(value: string) {
    if NUL in value || '\\' in value || StartsWith(value, "/") || EndsWith(value, "/") then false
    else
      var normalized := Normalize(value);
      normalized == value && normalized != "." && !StartsWith(normalized, "../") && normalized != ".."
  }

  predicate OrdinarySegment(segment: string) {
    segment != "" && segment != "." && segment != ".."
  }

  function Utf8Size(c: char): nat {
    if c as int < 0x80 then 1 else if c as int < 0x800 then 2 else if c as int < 0x1_0000 then 3 else 4
  }

  function Utf8Length(s: string): (n: nat)
    ensures n == 0 <==> s == ""
  {
    if s == "" then 0 else Utf8Size(s[0]) + Utf8Length(s[1..])
  }

  function Utf16Length(s: string): (n: nat)
    ensures n == 0 <==> s == ""
  {
    if s == "" then 0 else (if IsOneUnit(s[0]) then 1 else 2) + Utf16Length(s[1..])
  }

  /** Characters of the basic plane take one UTF-16 unit. */
  predicate IsOneUnit(c: char) {
    c as int < 0x1_0000
  }

  datatype PathError = BadPath

  /** The guest agent: returns the segments. */
  function ValidateRelativePath(s: string): Result<seq<string>, PathError> {
    if Utf8Length(s) == 0 || Utf8Length(s) > 1024 then Err(BadPath)
    else if NUL in s || '\\' in s then Err(BadPath)
    else if StartsWith(s, "/") || EndsWith(s, "/") then Err(BadPath)
    else if exists i :: 0 <= i < |Split(s, '/')| && !OrdinarySegment(Split(s, '/')[i]) then Err(BadPath)
    else Ok(Split(s, '/'))
  }

  /** The guest agent, for directories: "." is the root. */
  function ValidateWorkspaceDirectory(s: string): Result<seq<string>, PathError> {
    if s == "." then Ok([]) else ValidateRelativePath(s)
  }

  /** The development runtime of the node agent. */
  function ValidateDataPath(value: string, allowEmpty: bool): Result<string, PathError> {
    if Utf8Length(value) > 4096 || NUL in value || '\\' in value || StartsWith(value, "/") then Err(BadPath)
    else if (value == "" || value == ".") && allowEmpty then Ok("")
    else
      var parts := Split(value, '/');
      if value == "" || exists i :: 0 <= i < |parts| && !OrdinarySegment(parts[i]) then Err(BadPath)
      else Ok(Join(parts, '/'))
  }

  /** The working directory of a job. */
  predicate RelativeJobPath(path: string) {
    && 1 <= Utf16Length(path) <= 1024
    && if path == "." then true
       else if NUL in path || '\\' in path || StartsWith(path, "/") || EndsWith(path, "/") then false
       else forall i :: 0 <= i < |Split(path, '/')| ==> OrdinarySegment(Split(path, '/')[i])
  }

  /** The browser: `trim` is the trimming of white space. */
  function NormalizeWorkspacePath(trim: string -> string, source: string, allowRoot: bool): Result<string, PathError> {
    var path := trim(source);
    if allowRoot && path == "." then Ok(path)
    else if path == "" || Utf16Length(path) > 4096 || StartsWith(path, "/") || EndsWith(path, "/")
            || '\\' in path || NUL in path then Err(BadPath)
    else if exists i :: 0 <= i < |Split(path, '/')| && !OrdinarySegment(Split(path, '/')[i]) then Err(BadPath)
    else Ok(path)
  }

  /** What all of them accept: ordinary segments, and no forbidden character. */
  ghost predicate CleanRelative(s: string) {
    && NUL !in s && '\\' !in s
    && forall i :: 0 <= i < |Split(s, '/')| ==> OrdinarySegment(Split(s, '/')[i])
  }

  /* ---- They agree ---- */

  lemma {:induction false} OrdinarySegmentsStay(stack: seq<string>, segments: seq<string>, above: bool)
    requires forall i :: 0 <= i < |segments| ==> OrdinarySegment(segments[i])
    ensures Resolve(stack, segments, above) == stack + segments
    decreases |segments|
  {
    if segments == [] {
      assert stack + segments == stack;
    } else {
      OrdinarySegmentsStay(Push(stack, segments[0], above), segments[1..], above);
      assert stack + [segments[0]] + segments[1..] == stack + segments;
    }
  }

  /** What is on a stack: no empty and no "." segment, ".." only at the bottom, and
      no separator. */
  ghost predicate StackShape(stack: seq<string>) {
    && Clean(stack, '/')
    && (forall i :: 0 <= i < |stack| ==> stack[i] != "" && stack[i] != ".")
    && (forall i, j :: 0 <= i < j < |stack| && stack[j] == ".." ==> stack[i] == "..")
  }

  lemma {:induction false} ResolvedShape(stack: seq<string>, segments: seq<string>, above: bool)
    requires StackShape(stack) && Clean(segments, '/')
    ensures StackShape(Resolve(stack, segments, above))
    decreases |segments|
  {
    if segments != [] {
      ResolvedShape(Push(stack, segments[0], above), segments[1..], above);
    }
  }

  lemma {:induction false} JoinedEnds(parts: seq<string>)
    requires parts != [] && Clean(parts, '/') && parts[0] != "" && parts[|parts| - 1] != ""
    ensures var s := Join(parts, '/'); s != "" && s[0] != '/' && s[|s| - 1] != '/'
    decreases |parts|
  {
    if |parts| > 1 {
      LastOfJoin(parts);
    }
  }

  lemma {:induction false} LastOfJoin(parts: seq<string>)
    requires parts != [] && parts[|parts| - 1] != ""
    ensures Join(parts, '/') != "" && Join(parts, '/')[|Join(parts, '/')| - 1] == parts[|parts| - 1][|parts[|parts| - 1]| - 1]
    decreases |parts|
  {
    if |parts| > 1 {
      LastOfJoin(parts[1..]);
    }
  }

  /** A clean path neither begins nor ends with a separator. */
  lemma CleanPathEnds(s: string)
    requires CleanRelative(s)
    ensures s != "" && !StartsWith(s, "/") && !EndsWith(s, "/")
  {
    JoinOfSplit(s, '/');
    JoinedEnds(Split(s, '/'));
  }

  lemma NormalizeRelative(value: string)
    requires value != "" && !StartsWith(value, "/") && !EndsWith(value, "/")
    ensures var joined := Join(Resolve([], Split(value, '/'), true), '/');
      Normalize(value) == if joined == "" then "." else joined
  {
    assert value[0] != '/';
    assert value[|value| - 1..] == [value[|value| - 1]];
  }

  /** Normalising and comparing accepts exactly the paths whose every segment is
      ordinary. */
  lemma NormalizedMeansClean(value: string)
    ensures IsSafeWorkspacePath(value) <==> CleanRelative(value)
  {
    if CleanRelative(value) {
      CleanPathEnds(value);
      CleanIsSafe(value);
    } else if IsSafeWorkspacePath(value) {
      SafeIsClean(value);
    }
  }

  lemma CleanIsSafe(value: string)
    requires CleanRelative(value) && value != "" && !StartsWith(value, "/") && !EndsWith(value, "/")
    ensures IsSafeWorkspacePath(value)
  {
    var parts := Split(value, '/');
    NormalizeRelative(value);
    OrdinarySegmentsStay([], parts, true);
    assert [] + parts == parts;
    JoinOfSplit(value, '/');
    assert OrdinarySegment(parts[0]);
    if value == "." || value == ".." {
      SplitClean(value, '/');
    }
    if StartsWith(value, "../") {
      assert value == ".." + "/" + value[3..];
      SplitFirst("..", value[3..], '/');
    }
  }

  lemma SafeIsClean(value: string)
    requires IsSafeWorkspacePath(value)
    ensures CleanRelative(value)
  {
    var parts := Split(value, '/');
    var stack := Resolve([], parts, true);
    assert value != "";
    NormalizeRelative(value);
    JoinOfSplit(value, '/');
    ResolvedShape([], parts, true);
    assert value == Join(stack, '/');
    SplitOfJoin(stack, '/');
    if i :| 0 <= i < |stack| && stack[i] == ".." {
      assert stack[0] == "..";
      LeadingDotDot(stack);
    }
  }

  lemma LeadingDotDot(stack: seq<string>)
    requires stack != [] && stack[0] == ".."
    ensures Join(stack, '/') == ".." || StartsWith(Join(stack, '/'), "../")
  {
    if |stack| > 1 {
      assert Join(stack, '/') == "../" + Join(stack[1..], '/');
    }
  }

  /** Length limits aside, all the validators accept the same paths; where they
      differ is the lengths they allow and how they count them, "." where it may
      stand for the root, and the browser's trimming. */
  lemma ValidatorsAgree(s: string, trim: string -> string)
    ensures ValidateRelativePath(s).Ok? <==> CleanRelative(s) && Utf8Length(s) <= 1024
    ensures ValidateRelativePath(s).Ok? ==> ValidateRelativePath(s).value == Split(s, '/')
    ensures ValidateWorkspaceDirectory(s).Ok? <==> s == "." || (CleanRelative(s) && Utf8Length(s) <= 1024)
    ensures ValidateWorkspaceDirectory(s).Ok? ==> ValidateWorkspaceDirectory(s).value == if s == "." then [] else Split(s, '/')
    ensures ValidateDataPath(s, true).Ok? <==> s == "" || s == "." || (CleanRelative(s) && Utf8Length(s) <= 4096)
    ensures ValidateDataPath(s, false).Ok? <==> CleanRelative(s) && Utf8Length(s) <= 4096
    ensures ValidateDataPath(s, false).Ok? ==> ValidateDataPath(s, false).value == s
    ensures RelativeJobPath(s) <==> (s == "." || CleanRelative(s)) && Utf16Length(s) <= 1024
    ensures NormalizeWorkspacePath(trim, s, false).Ok? <==> CleanRelative(trim(s)) && Utf16Length(trim(s)) <= 4096
    ensures NormalizeWorkspacePath(trim, s, true).Ok? <==>
              trim(s) == "." || (CleanRelative(trim(s)) && Utf16Length(trim(s)) <= 4096)
  {
    if CleanRelative(s) {
      CleanPathEnds(s);
    }
    if CleanRelative(trim(s)) {
      CleanPathEnds(trim(s));
    }
    JoinOfSplit(s, '/');
    DotIsShort();
  }

  lemma DotIsShort()
    ensures Utf16Length(".") == 1 && Utf8Length(".") == 1
  {
  }

  /** A path the guest protocol lets through is one the guest accepts, if its
      UTF-8 form is within the guest's limit; every other one the guest refuses. */
  lemma ProtocolAndGuestAgree(s: string)
    requires IsSafeWorkspacePath(s)
    ensures ValidateRelativePath(s).Ok? <==> Utf8Length(s) <= 1024
  {
    NormalizedMeansClean(s);
    ValidatorsAgree(s, x => x);
  }

  /* ---- Resolution below a root ---- */

  /** An accepted path resolves, from any root, to the root's segments followed by
      its own: strictly below the root at every step. */
  lemma ResolutionStaysBelow(root: seq<string>, s: string, k: nat)
    requires CleanRelative(s) && k <= |Split(s, '/')|
    ensures var parts := Split(s, '/');
      && Resolve(root, parts[..k], false) == root + parts[..k]
      && (k > 0 ==> root < Resolve(root, parts[..k], false))
  {
    OrdinarySegmentsStay(root, Split(s, '/')[..k], false);
  }

  /** A path with any other segment can leave the root, or stay where it was:
      resolution is injective on accepted paths only. */
  lemma AcceptedPathsResolveApart(root: seq<string>, s: string, t: string)
    requires CleanRelative(s) && CleanRelative(t)
    ensures Resolve(root, Split(s, '/'), false) == Resolve(root, Split(t, '/'), false) <==> s == t
  {
    OrdinarySegmentsStay(root, Split(s, '/'), false);
    OrdinarySegmentsStay(root, Split(t, '/'), false);
    JoinOfSplit(s, '/');
    JoinOfSplit(t, '/');
    if root + Split(s, '/') == root + Split(t, '/') {
      assert Split(s, '/') == (root + Split(s, '/'))[|root|..];
      assert Split(t, '/') == (root + Split(t, '/'))[|root|..];
    }
  }

  /** The node agent's second test of a parent directory looks at the text, not
      at the segments. */
  predicate ParentRefused(relativeParent: string) {
    StartsWith(relativeParent, "..")
  }

  /** It therefore refuses some accepted paths: exactly those below a directory
      whose name begins with two dots. */
  lemma ParentRefusedExactly(parent: seq<string>)
    requires Clean(parent, '/') && forall i :: 0 <= i < |parent| ==> OrdinarySegment(parent[i])
    ensures ParentRefused(Join(parent, '/')) <==> parent != [] && StartsWith(parent[0], "..")
  {
    if |parent| > 1 {
      var s := Join(parent, '/');
      assert s == parent[0] + "/" + Join(parent[1..], '/');
      if |parent[0]| == 1 {
        assert s[1] == '/';
      }
    }
  }

  lemma ParentRefusedExample()
    ensures OrdinarySegment("..cache") && ParentRefused(Join(["..cache"], '/'))
  {
  }
}
