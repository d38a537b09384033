/**
 Project paths confined to the home directory (src/daemon/server.ts,
 normalizeHomeProjectPath), over POSIX path resolution.
 */
module HomePath {
  import opened Wrappers
  import opened Text

  const SEP: char := '/'

  /** What ECMAScript's trim removes. */
  predicate IsSpace(c: char) {
    || '\U{09}' <= c <= '\U{0d}' || c == ' ' || c == '\U{a0}' || c == '\U{1680}'
    || '\U{2000}' <= c <= '\U{200a}' || c == '\U{2028}' || c == '\U{2029}' || c == '\U{202f}'
    || c == '\U{205f}' || c == '\U{3000}' || c == '\U{feff}'
  }

  predicate StartsWith(s: string, t: string) {
    t <= s
  }

  // ---- POSIX resolution

  /** Walks the parts from a stack of directories: "." stays, ".." goes up but never above the root. */
  function Walk(stack: seq<string>, parts: seq<string>): seq<string>
    decreases |parts|
  {
    if parts == [] then stack
    else
      var part := parts[0];
      var next :=
        if part == "." then stack
        else if part == ".." then (if stack == [] then [] else stack[..|stack| - 1])
        else stack + [part];
      Walk(next, parts[1..])
  }

  /** The directories an absolute or working-directory-relative path leads to. */
  function Target(cwd: string, path: string): seq<string> {
    Walk([], Pieces(if StartsWith(path, "/") then path else cwd + "/" + path, SEP))
  }

  function Absolute(segments: seq<string>): string {
    "/" + Join(segments, SEP)
  }

  function Resolve(cwd: string, path: string): string {
    Absolute(Target(cwd, path))
  }

  // ---- the confinement check

  datatype PathError = Required | IsRoot | NotUnderHome(home: string)

  /** Writes out the ways of naming the home directory. */
  function Expand(raw: string, home: string): string {
    if raw == "~" then home
    else if StartsWith(raw, "~/") then home + "/" + raw[2..]
    else if raw == "$HOME" || raw == "${HOME}" then home
    else if StartsWith(raw, "$HOME/") then home + "/" + raw[6..]
    else if StartsWith(raw, "${HOME}/") then home + "/" + raw[8..]
    else raw
  }

  /** An input that is not a string is None. */
  function NormalizeHomeProjectPath(input: Option<string>, home: string, cwd: string): Result<string, PathError> {
    if input.None? || Strip(IsSpace, input.value) == "" then Err(Required)
    else
      var normalizedHome := Resolve(cwd, home);
      var resolved := Resolve(cwd, Expand(Strip(IsSpace, input.value), normalizedHome));
      if resolved == "/" then Err(IsRoot)
      else if resolved != normalizedHome && !StartsWith(resolved, normalizedHome + "/") then Err(NotUnderHome(normalizedHome))
      else Ok(resolved)
  }

  // ---- resolved paths

  predicate IsClean(segment: string) {
    IsPiece(segment, SEP) && segment != "." && segment != ".."
  }

  predicate AreClean(segments: seq<string>) {
    forall i :: 0 <= i < |segments| ==> IsClean(segments[i])
  }

  lemma {:induction false} WalkClean(stack: seq<string>, parts: seq<string>)
    requires AreClean(stack) && ArePieces(parts, SEP)
    ensures AreClean(Walk(stack, parts))
    decreases |parts|
  {
    if parts != [] {
      var part := parts[0];
      var next :=
        if part == "." then stack
        else if part == ".." then (if stack == [] then [] else stack[..|stack| - 1])
        else stack + [part];
      assert AreClean(next);
      WalkClean(next, parts[1..]);
    }
  }

  lemma {:induction false} WalkOfClean(stack: seq<string>, parts: seq<string>)
    requires AreClean(parts)
    ensures Walk(stack, parts) == stack + parts
    decreases |parts|
  {
    if parts == [] {
      assert stack + [] == stack;
    } else {
      WalkOfClean(stack + [parts[0]], parts[1..]);
      assert stack + [parts[0]] + parts[1..] == stack + parts;
    }
  }

  lemma {:induction false} WalkConcat(stack: seq<string>, a: seq<string>, b: seq<string>)
    ensures Walk(stack, a + b) == Walk(Walk(stack, a), b)
    decreases |a|
  {
    if a == [] {
      assert a + b == b;
    } else {
      var next :=
        if a[0] == "." then stack
        else if a[0] == ".." then (if stack == [] then [] else stack[..|stack| - 1])
        else stack + [a[0]];
      assert (a + b)[1..] == a[1..] + b;
      WalkConcat(next, a[1..], b);
    }
  }

  lemma {:induction false} TargetClean(cwd: string, path: string)
    ensures AreClean(Target(cwd, path))
  {
    WalkClean([], Pieces(if StartsWith(path, "/") then path else cwd + "/" + path, SEP));
  }

  lemma {:induction false} AbsolutePieces(segments: seq<string>)
    requires ArePieces(segments, SEP)
    ensures Pieces(Absolute(segments), SEP) == segments
  {
    PiecesJoin(segments, SEP);
    PiecesConcat("", Join(segments, SEP), SEP);
    assert "" + [SEP] + Join(segments, SEP) == Absolute(segments);
    PiecesJoin([], SEP);
    assert Pieces("", SEP) == [];
  }

  /** A resolved path leads where it says, from any working directory. */
  lemma {:induction false} TargetOfAbsolute(cwd: string, segments: seq<string>)
    requires AreClean(segments)
    ensures Target(cwd, Absolute(segments)) == segments
  {
    AbsolutePieces(segments);
    WalkOfClean([], segments);
    assert [] + segments == segments;
  }

  /**
   On resolved paths the string-prefix test agrees with the segment-prefix test exactly
   when the home directory is not the root.
   */
  lemma {:induction false} PrefixTests(home: seq<string>, target: seq<string>)
    requires AreClean(home) && AreClean(target) && target != []
    ensures var h, r := Absolute(home), Absolute(target);
            (r == h || StartsWith(r, h + "/")) <==> home != [] && home <= target
  {
    var h, r := Absolute(home), Absolute(target);
    AbsolutePieces(home);
    AbsolutePieces(target);
    if StartsWith(r, h + "/") {
      var rest := r[|h| + 1..];
      assert r == h + [SEP] + rest;
      PiecesConcat(h, rest, SEP);
      assert target == home + Pieces(rest, SEP);
    }
    if home == [] {
      FirstCharacter(target);
    } else if home < target {
      PrefixExtends(home, target);
    } else {
      assert home <= target <==> home == target;
    }
  }

  lemma {:induction false} FirstCharacter(segments: seq<string>)
    requires ArePieces(segments, SEP) && segments != []
    ensures |Absolute(segments)| > 1 && Absolute(segments)[1] == segments[0][0] != SEP
    ensures Absolute(segments) != "/"
  {
    assert Join(segments, SEP)[0] == segments[0][0];
    assert segments[0][0] in segments[0];
  }

  lemma {:induction false} PrefixExtends(home: seq<string>, target: seq<string>)
    requires home != [] && home < target
    ensures StartsWith(Absolute(target), Absolute(home) + "/")
  {
    var rest := target[|home|..];
    assert target == home + rest;
    JoinAppend(home, rest, SEP);
    assert Absolute(target) == Absolute(home) + "/" + Join(rest, SEP);
  }

  // ---- what resolution does, name by name

  function Parent(segments: seq<string>): seq<string> {
    if segments == [] then [] else segments[..|segments| - 1]
  }

  /**
   One more name on a path: nothing and "." stay, ".." goes up, though never above the
   root, and any other name goes down.
   */
  lemma {:induction false} OneMoreName(cwd: string, path: string, name: string)
    requires path != "" && SEP !in name
    ensures Target(cwd, path + "/" + name) ==
            if name == "" || name == "." then Target(cwd, path)
            else if name == ".." then Parent(Target(cwd, path))
            else Target(cwd, path) + [name]
  {
    var whole := if StartsWith(path, "/") then path else cwd + "/" + path;
    var longer := path + "/" + name;
    assert longer[0] == path[0];
    assert StartsWith(longer, "/") <==> StartsWith(path, "/");
    assert (if StartsWith(longer, "/") then longer else cwd + "/" + longer) == whole + [SEP] + name;
    PiecesConcat(whole, name, SEP);
    WalkConcat([], Pieces(whole, SEP), Pieces(name, SEP));
    if name == "" {
      PiecesJoin([], SEP);
      assert Pieces(whole, SEP) + [] == Pieces(whole, SEP);
    } else {
      PiecesOfPiece(name, SEP);
      WalkOne(Target(cwd, path), name);
    }
  }

  lemma {:induction false} WalkOne(stack: seq<string>, name: string)
    ensures Walk(stack, [name]) == if name == "." then stack else if name == ".." then Parent(stack) else stack + [name]
  {
    var none: seq<string> := [];
    assert [name][1..] == none;
  }

  /** Where paths start: an absolute one at the root, any other at the working directory. */
  lemma {:induction false} WherePathsStart(cwd: string, other: string, path: string)
    ensures Target(cwd, "/") == []
    ensures StartsWith(path, "/") ==> Target(cwd, path) == Target(other, path)
    ensures StartsWith(cwd, "/") && !StartsWith(path, "/") ==> Target(cwd, path) == Target(other, cwd + "/" + path)
  {
    AbsolutePieces([]);
    assert Absolute([]) == "/";
    if StartsWith(cwd, "/") {
      assert (cwd + "/" + path)[0] == cwd[0];
    }
  }

  /** An input that names home in none of the ways is taken as it is, without the white space around it. */
  lemma {:induction false} OtherInputsAreKept(input: string, home: string, cwd: string)
    requires var raw := Strip(IsSpace, input);
             raw != "~" && raw != "$HOME" && raw != "${HOME}" && !("~/" <= raw) && !("$HOME/" <= raw) && !("${HOME}/" <= raw)
    ensures Asked(input, home, cwd) == Target(cwd, Strip(IsSpace, input))
  {
  }

  lemma {:induction false} NotAString(home: string, cwd: string)
    ensures NormalizeHomeProjectPath(None, home, cwd) == Err(Required)
  {
  }

  lemma {:induction false} WhiteSpace(c: char)
    ensures IsSpace(c) <==> c as int in {9, 10, 11, 12, 13, 0x20, 0xa0, 0x1680, 0x2000, 0x2001, 0x2002, 0x2003, 0x2004, 0x2005,
                                         0x2006, 0x2007, 0x2008, 0x2009, 0x200a, 0x2028, 0x2029, 0x202f, 0x205f, 0x3000, 0xfeff}
  {
  }

  // ---- main results

  /** The directories the input leads to, once trimmed and expanded. */
  function Asked(input: string, home: string, cwd: string): seq<string> {
    Target(cwd, Expand(Strip(IsSpace, input), Resolve(cwd, home)))
  }

  /**
   An input is accepted exactly when it is not blank and leads to the home directory or
   below it, the home directory not being the root; the result names that place.
   */
  lemma {:induction false} AcceptedExactly(input: string, home: string, cwd: string)
    ensures var target := Asked(input, home, cwd);
            var homeTarget := Target(cwd, home);
            NormalizeHomeProjectPath(Some(input), home, cwd) ==
            if Strip(IsSpace, input) == "" then Err(Required)
            else if target == [] then Err(IsRoot)
            else if homeTarget != [] && homeTarget <= target then Ok(Absolute(target))
            else Err(NotUnderHome(Absolute(homeTarget)))
  {
    var target := Asked(input, home, cwd);
    TargetClean(cwd, home);
    TargetClean(cwd, Expand(Strip(IsSpace, input), Resolve(cwd, home)));
    if target != [] {
      PrefixTests(Target(cwd, home), target);
      FirstCharacter(target);
    }
  }

  /** With the root as home nothing is accepted, though every absolute path is below it. */
  lemma {:induction false} RootHomeAcceptsNothing(input: string, cwd: string)
    ensures NormalizeHomeProjectPath(Some(input), "/", cwd).Err?
    ensures Target(cwd, "/") == [] <= Asked(input, "/", cwd)
  {
    AbsolutePieces([]);
    assert Absolute([]) == "/";
    TargetOfAbsolute(cwd, []);
    AcceptedExactly(input, "/", cwd);
  }

  /** Whatever is accepted is a clean absolute path at or below home that resolves to itself. */
  lemma {:induction false} AcceptedIsConfined(input: Option<string>, home: string, cwd: string)
    ensures NormalizeHomeProjectPath(input, home, cwd).Ok? ==>
              var r := NormalizeHomeProjectPath(input, home, cwd).value;
              && AreClean(Pieces(r, SEP))
              && r == Absolute(Pieces(r, SEP))
              && Target(cwd, home) != []
              && Target(cwd, home) <= Pieces(r, SEP)
              && forall other :: Resolve(other, r) == r
  {
    var normalized := NormalizeHomeProjectPath(input, home, cwd);
    if normalized.Ok? {
      AcceptedExactly(input.value, home, cwd);
      var target := Asked(input.value, home, cwd);
      TargetClean(cwd, Expand(Strip(IsSpace, input.value), Resolve(cwd, home)));
      AbsolutePieces(target);
      forall other ensures Resolve(other, normalized.value) == normalized.value {
        TargetOfAbsolute(other, target);
      }
    }
  }

  predicate NamesHome(name: string) {
    name == "~" || name == "$HOME" || name == "${HOME}"
  }

  /** The three names of home lead to it, and the paths written after them lead on from it. */
  lemma {:induction false} HomeFormsAgree(name: string, rest: string, home: string, cwd: string)
    requires NamesHome(name)
    requires rest == "" || !IsSpace(rest[|rest| - 1])
    ensures Asked(name, home, cwd) == Target(cwd, home)
    ensures Asked(name + "/" + rest, home, cwd) == Walk(Target(cwd, home), Pieces(rest, SEP))
  {
    HomeAlone(name, home, cwd);
    BelowHome(name, rest, home, cwd);
  }

  lemma {:induction false} HomeAlone(name: string, home: string, cwd: string)
    requires NamesHome(name)
    ensures Asked(name, home, cwd) == Target(cwd, home)
  {
    TrimNothing(name);
    TargetClean(cwd, home);
    TargetOfAbsolute(cwd, Target(cwd, home));
    assert Expand(name, Resolve(cwd, home)) == Resolve(cwd, home);
  }

  lemma {:induction false} BelowHome(name: string, rest: string, home: string, cwd: string)
    requires NamesHome(name)
    requires rest == "" || !IsSpace(rest[|rest| - 1])
    ensures Asked(name + "/" + rest, home, cwd) == Walk(Target(cwd, home), Pieces(rest, SEP))
  {
    var raw := name + "/" + rest;
    assert raw[0] == name[0];
    assert raw[|raw| - 1] == if rest == "" then '/' else rest[|rest| - 1];
    TrimNothing(raw);
    AfterName(name, rest);
    TargetClean(cwd, home);
    TargetBelow(cwd, Target(cwd, home), rest);
  }

  /** Going on from a clean absolute path. */
  lemma {:induction false} TargetBelow(cwd: string, segments: seq<string>, rest: string)
    requires AreClean(segments)
    ensures Target(cwd, Absolute(segments) + "/" + rest) == Walk(segments, Pieces(rest, SEP))
  {
    AbsolutePieces(segments);
    PiecesConcat(Absolute(segments), rest, SEP);
    assert Absolute(segments) + [SEP] + rest == Absolute(segments) + "/" + rest;
    WalkConcat([], segments, Pieces(rest, SEP));
    WalkOfClean([], segments);
    assert [] + segments == segments;
  }

  lemma {:induction false} TrimNothing(s: string)
    requires s != "" && !IsSpace(s[0]) && !IsSpace(s[|s| - 1])
    ensures Strip(IsSpace, s) == s
  {
    LeadIs(IsSpace, s, 0);
    RStripNothing(IsSpace, s);
  }

  lemma {:induction false} AfterName(name: string, rest: string)
    requires NamesHome(name)
    ensures forall h :: Expand(name + "/" + rest, h) == h + "/" + rest
  {
    var raw := name + "/" + rest;
    assert raw[1] == (name + "/")[1];
    assert raw[|name|] == '/' && name + "/" <= raw;
    assert raw[|name| + 1..] == rest;
    assert raw != "~" && raw != "$HOME" && raw != "${HOME}";
  }
}
