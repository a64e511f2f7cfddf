/**
 * Lexical path normalisation (`normalize_path` of crates/mxdx-launcher/src/executor.rs), against
 * what a path means: the directory that walking its components reaches in a tree without
 * symbolic links.
 */
module Paths {
  import opened Common

  // ---------------------------------------------------------------------------
  // Text
  // ---------------------------------------------------------------------------

  /** Splits at every '/'; the empty text is one empty part. */
  function Split(s: string): (parts: seq<string>)
    ensures |parts| >= 1
  {
    if s == "" then [""]
    else
      var rest := Split(s[1..]);
      if s[0] == '/' then [""] + rest else [[s[0]] + rest[0]] + rest[1..]
  }

  function Join(parts: seq<string>): string {
    if parts == [] then ""
    else if |parts| == 1 then parts[0]
    else parts[0] + "/" + Join(parts[1..])
  }

  predicate Plain(part: string) {
    '/' !in part
  }

  predicate AllPlain(parts: seq<string>) {
    forall i :: 0 <= i < |parts| ==> Plain(parts[i])
  }

  lemma {:induction false} SplitIsPlain(s: string)
    ensures AllPlain(Split(s))
  {
    if s != "" {
      SplitIsPlain(s[1..]);
      var rest := Split(s[1..]);
      assert Plain(rest[0]);
      if s[0] == '/' {
        assert Plain("");
      } else {
        assert Plain([s[0]] + rest[0]);
      }
    }
  }

  lemma {:induction false} SplitHead(part: string, rest: string)
    requires Plain(part)
    ensures Split(part + "/" + rest) == [part] + Split(rest)
  {
    var s := part + "/" + rest;
    if part == "" {
      assert s[1..] == rest;
    } else {
      assert s[1..] == part[1..] + "/" + rest;
      assert part[0] in part && forall c :: c in part[1..] ==> c in part;
      SplitHead(part[1..], rest);
      assert [part[0]] + part[1..] == part;
    }
  }

  lemma {:induction false} SplitOnePart(part: string)
    requires Plain(part)
    ensures Split(part) == [part]
  {
    if part != "" {
      assert part[0] in part && forall c :: c in part[1..] ==> c in part;
      SplitOnePart(part[1..]);
      assert [part[0]] + part[1..] == part;
    }
  }

  lemma {:induction false} SplitOfJoin(parts: seq<string>)
    requires parts != [] && AllPlain(parts)
    ensures Split(Join(parts)) == parts
  {
    assert Plain(parts[0]);
    if |parts| == 1 {
      SplitOnePart(parts[0]);
    } else {
      assert AllPlain(parts[1..]);
      SplitOfJoin(parts[1..]);
      SplitHead(parts[0], Join(parts[1..]));
    }
  }

  // ---------------------------------------------------------------------------
  // The normaliser
  // ---------------------------------------------------------------------------

  predicate IsAbsolute(path: string) {
    path != "" && path[0] == '/'
  }

  /** One turn of the loop. */
  function Push(absolute: bool, stack: seq<string>, part: string): seq<string> {
    if part == "" || part == "." then stack
    else if part == ".." then
      if absolute then (if stack == [] then stack else stack[..|stack| - 1])
      else if stack == [] || stack[|stack| - 1] == ".." then stack + [".."]
      else stack[..|stack| - 1]
    else stack + [part]
  }

  function Reduce(absolute: bool, parts: seq<string>): seq<string> {
    if parts == [] then []
    else Push(absolute, Reduce(absolute, parts[..|parts| - 1]), parts[|parts| - 1])
  }

  lemma ReduceSnoc(absolute: bool, parts: seq<string>, i: nat)
    requires i < |parts|
    ensures Reduce(absolute, parts[..i + 1]) == Push(absolute, Reduce(absolute, parts[..i]), parts[i])
  {
    hide Push;
    assert parts[..i + 1][..i] == parts[..i];
  }

  function Render(absolute: bool, stack: seq<string>): string {
    if absolute then "/" + Join(stack) else Join(stack)
  }

  function Components(path: string): seq<string> {
    Reduce(IsAbsolute(path), Split(path))
  }

  function Normalized(path: string): string {
    Render(IsAbsolute(path), Components(path))
  }

  method NormalizePath(path: string) returns (r: string)
    ensures r == Normalized(path)
  {
    var components: seq<string> := [];
    var isAbsolute := path != "" && path[0] == '/';
    var parts := Split(path);
    for i := 0 to |parts|
      invariant components == Reduce(isAbsolute, parts[..i])
    {
      var part := parts[i];
      ReduceSnoc(isAbsolute, parts, i);
      hide Reduce;
      if part == "" || part == "." {
      } else if part == ".." {
        if isAbsolute {
          if components != [] {
            components := components[..|components| - 1];
          }
        } else if components == [] || components[|components| - 1] == ".." {
          components := components + [".."];
        } else {
          components := components[..|components| - 1];
        }
      } else {
        components := components + [part];
      }
    }
    assert parts[..|parts|] == parts;
    r := if isAbsolute then "/" + Join(components) else Join(components);
  }

  // ---------------------------------------------------------------------------
  // What a path means
  // ---------------------------------------------------------------------------

  /** A directory, as the names from the root down to it. */
  type Dir = seq<string>

  predicate IsName(name: string) {
    name != "" && name != "." && name != ".." && Plain(name)
  }

  predicate IsDir(dir: Dir) {
    forall i :: 0 <= i < |dir| ==> IsName(dir[i])
  }

  function Parent(dir: Dir): Dir {
    if dir == [] then dir else dir[..|dir| - 1]
  }

  /** One component in a tree whose directories are those of `isDir`; the root is its own parent. */
  function Enter(isDir: Dir -> bool, dir: Dir, part: string): Option<Dir> {
    if part == "" || part == "." then Some(dir)
    else if part == ".." then Some(Parent(dir))
    else if isDir(dir + [part]) then Some(dir + [part])
    else None
  }

  function Walk(isDir: Dir -> bool, start: Dir, parts: seq<string>): Option<Dir> {
    if parts == [] then Some(start)
    else
      var before := Walk(isDir, start, parts[..|parts| - 1]);
      if before.None? then None else Enter(isDir, before.value, parts[|parts| - 1])
  }

  function Base(start: Dir, absolute: bool): Dir {
    if absolute then [] else start
  }

  /** Where the components of `path` lead a process working in `start`, if they lead anywhere. */
  function Reach(isDir: Dir -> bool, start: Dir, path: string): Option<Dir> {
    Walk(isDir, Base(start, IsAbsolute(path)), Split(path))
  }

  /** The directory that `path` names, if there is one; the empty path names nothing. */
  function Resolve(isDir: Dir -> bool, start: Dir, path: string): Option<Dir> {
    if path == "" then None else Reach(isDir, start, path)
  }

  // ---------------------------------------------------------------------------
  // Normal form
  // ---------------------------------------------------------------------------

  predicate UpOnlyLeading(stack: seq<string>) {
    forall i, j :: 0 <= i < j < |stack| && stack[j] == ".." ==> stack[i] == ".."
  }

  predicate IsComponent(part: string) {
    part != "" && part != "." && Plain(part)
  }

  predicate AllComponents(stack: seq<string>) {
    forall i :: 0 <= i < |stack| ==> IsComponent(stack[i])
  }

  predicate Normal(absolute: bool, stack: seq<string>) {
    AllComponents(stack) && (absolute ==> ".." !in stack) && UpOnlyLeading(stack)
  }

  lemma InitNormal(absolute: bool, stack: seq<string>)
    requires Normal(absolute, stack) && stack != []
    ensures Normal(absolute, stack[..|stack| - 1])
  {
  }

  lemma PushNormal(absolute: bool, stack: seq<string>, part: string)
    requires Normal(absolute, stack) && Plain(part)
    ensures Normal(absolute, Push(absolute, stack, part))
  {
    if part == ".." && !absolute && stack != [] && stack[|stack| - 1] == ".." {
      assert forall i :: 0 <= i < |stack| ==> stack[i] == "..";
    }
  }

  lemma {:induction false} ReduceNormal(absolute: bool, parts: seq<string>)
    requires AllPlain(parts)
    ensures Normal(absolute, Reduce(absolute, parts))
  {
    if parts != [] {
      var init := parts[..|parts| - 1];
      assert AllPlain(init);
      ReduceNormal(absolute, init);
      assert Plain(parts[|parts| - 1]);
      PushNormal(absolute, Reduce(absolute, init), parts[|parts| - 1]);
    }
  }

  /** The last component of a normal stack is pushed on the ones before it. */
  lemma PushLast(absolute: bool, init: seq<string>, last: string)
    requires Normal(absolute, init + [last])
    ensures Push(absolute, init, last) == init + [last]
  {
    var stack := init + [last];
    assert IsComponent(stack[|init|]);
    if last == ".." {
      assert !absolute by {
        assert last in stack;
      }
      if init != [] {
        assert stack[|init|] == ".." && stack[|init| - 1] == "..";
      }
    }
  }

  lemma {:induction false} ReduceOfNormal(absolute: bool, stack: seq<string>)
    requires Normal(absolute, stack)
    ensures Reduce(absolute, stack) == stack
  {
    hide Normal, Push;
    if stack != [] {
      var init, last := stack[..|stack| - 1], stack[|stack| - 1];
      InitNormal(absolute, stack);
      ReduceOfNormal(absolute, init);
      assert stack == init + [last];
      PushLast(absolute, init, last);
    }
  }

  /** Leading empty parts change nothing. */
  lemma {:induction false} ReduceEmptyHead(absolute: bool, parts: seq<string>)
    ensures Reduce(absolute, [""] + parts) == Reduce(absolute, parts)
  {
    var all := [""] + parts;
    if parts == [] {
      assert all[..0] == [];
    } else {
      assert all[..|all| - 1] == [""] + parts[..|parts| - 1];
      ReduceEmptyHead(absolute, parts[..|parts| - 1]);
    }
  }

  lemma JoinIsRelative(stack: seq<string>)
    requires AllComponents(stack)
    ensures !IsAbsolute(Join(stack))
  {
    if stack != [] {
      assert IsComponent(stack[0]) && stack[0][0] in stack[0];
    }
  }

  /** The parts that a joined stack splits into. */
  function JoinedParts(stack: seq<string>): seq<string> {
    if stack == [] then [""] else stack
  }

  lemma SplitJoined(stack: seq<string>)
    requires AllComponents(stack)
    ensures Split(Join(stack)) == JoinedParts(stack)
  {
    if stack != [] {
      assert AllPlain(stack) by {
        forall i | 0 <= i < |stack| ensures Plain(stack[i]) {
          assert IsComponent(stack[i]);
        }
      }
      SplitOfJoin(stack);
    }
  }

  lemma ReduceJoined(absolute: bool, stack: seq<string>)
    requires Normal(absolute, stack)
    ensures Reduce(absolute, JoinedParts(stack)) == stack
  {
    hide Normal;
    if stack == [] {
      ReduceEmptyHead(absolute, []);
      assert [""] + [] == JoinedParts(stack);
    } else {
      ReduceOfNormal(absolute, stack);
    }
  }

  lemma SplitSlash(text: string)
    ensures Split("/" + text) == [""] + Split(text)
  {
    assert ("/" + text)[1..] == text;
  }

  /** Reading a rendered normal stack gives back what was rendered. */
  lemma ReadBack(absolute: bool, stack: seq<string>)
    requires Normal(absolute, stack)
    ensures IsAbsolute(Render(absolute, stack)) == absolute
    ensures Split(Render(absolute, stack)) == (if absolute then [""] else []) + JoinedParts(stack)
    ensures Components(Render(absolute, stack)) == stack
  {
    JoinIsRelative(stack);
    hide AllComponents, UpOnlyLeading, Split, Join, Reduce, JoinedParts;
    SplitJoined(stack);
    ReduceJoined(absolute, stack);
    if absolute {
      SplitSlash(Join(stack));
      ReduceEmptyHead(absolute, JoinedParts(stack));
    }
  }

  lemma ComponentsNormal(path: string)
    ensures Normal(IsAbsolute(path), Components(path))
  {
    SplitIsPlain(path);
    ReduceNormal(IsAbsolute(path), Split(path));
  }

  /**
   * For every path the result splits into a normal form: no empty or "." component, no ".." when
   * absolute and only leading ".." when relative. The one empty part besides the one before the
   * leading '/' is that of "/" and "" themselves. Absolute paths stay absolute.
   */
  lemma NormalForm(path: string)
    ensures var absolute, stack := IsAbsolute(path), Components(path);
      && IsAbsolute(Normalized(path)) == absolute
      && Normal(absolute, stack)
      && Split(Normalized(path)) == (if absolute then [""] else []) + JoinedParts(stack)
  {
    hide Normal, Components, Render, IsAbsolute, Split, JoinedParts;
    ComponentsNormal(path);
    ReadBack(IsAbsolute(path), Components(path));
  }

  lemma Idempotent(path: string)
    ensures Normalized(Normalized(path)) == Normalized(path)
  {
    hide Normal, Components, Render, IsAbsolute, Split, JoinedParts;
    ComponentsNormal(path);
    ReadBack(IsAbsolute(path), Components(path));
  }

  /** A path is left as it is exactly when it is the text of a normal form. */
  lemma FixedIffNormal(path: string)
    ensures Normalized(path) == path
       <==> exists absolute, stack :: Normal(absolute, stack) && path == Render(absolute, stack)
  {
    hide Normal, Components, Render, IsAbsolute;
    ComponentsNormal(path);
    forall absolute, stack | Normal(absolute, stack) && path == Render(absolute, stack)
      ensures Normalized(path) == path
    {
      ReadBack(absolute, stack);
    }
  }

  // ---------------------------------------------------------------------------
  // Meaning
  // ---------------------------------------------------------------------------

  lemma WalkSnoc(isDir: Dir -> bool, start: Dir, parts: seq<string>, part: string)
    ensures var before := Walk(isDir, start, parts);
      Walk(isDir, start, parts + [part]) == if before.None? then None else Enter(isDir, before.value, part)
  {
    assert (parts + [part])[..|parts|] == parts;
  }

  /** A stack without ".." leads from the root to the directory of those names. */
  lemma {:induction false} WalkDown(isDir: Dir -> bool, stack: seq<string>)
    requires Normal(true, stack) && Walk(isDir, [], stack).Some?
    ensures Walk(isDir, [], stack) == Some(stack)
  {
    if stack != [] {
      var init, last := stack[..|stack| - 1], stack[|stack| - 1];
      InitNormal(true, stack);
      WalkDown(isDir, init);
      assert IsComponent(last) && last in stack;
      assert stack == init + [last];
    }
  }

  /** One turn of the loop follows one component. */
  lemma PushMeaning(isDir: Dir -> bool, base: Dir, absolute: bool, stack: seq<string>, part: string)
    requires Normal(absolute, stack) && (absolute ==> base == [])
    requires Walk(isDir, base, stack).Some?
    requires Enter(isDir, Walk(isDir, base, stack).value, part).Some?
    ensures Walk(isDir, base, Push(absolute, stack, part))
         == Enter(isDir, Walk(isDir, base, stack).value, part)
  {
    if part == ".." && stack != [] {
      if absolute {
        WalkDown(isDir, stack);
        InitNormal(true, stack);
        WalkDown(isDir, stack[..|stack| - 1]);
      } else if stack[|stack| - 1] == ".." {
        WalkSnoc(isDir, base, stack, part);
      } else {
        assert IsComponent(stack[|stack| - 1]);
        var before := Walk(isDir, base, stack[..|stack| - 1]).value;
        assert (before + [stack[|stack| - 1]])[..|before|] == before;
      }
    } else {
      WalkSnoc(isDir, base, stack, part);
    }
  }

  lemma {:induction false} ReduceMeaning(isDir: Dir -> bool, base: Dir, absolute: bool, parts: seq<string>)
    requires AllPlain(parts) && (absolute ==> base == [])
    requires Walk(isDir, base, parts).Some?
    ensures Walk(isDir, base, Reduce(absolute, parts)) == Walk(isDir, base, parts)
  {
    if parts != [] {
      var init := parts[..|parts| - 1];
      assert AllPlain(init);
      ReduceMeaning(isDir, base, absolute, init);
      ReduceNormal(absolute, init);
      hide Normal, Push, Enter;
      PushMeaning(isDir, base, absolute, Reduce(absolute, init), parts[|parts| - 1]);
    }
  }

  lemma {:induction false} WalkEmptyHead(isDir: Dir -> bool, base: Dir, parts: seq<string>)
    ensures Walk(isDir, base, [""] + parts) == Walk(isDir, base, parts)
  {
    var all := [""] + parts;
    if parts == [] {
      assert all[..0] == [];
    } else {
      assert all[..|all| - 1] == [""] + parts[..|parts| - 1];
      WalkEmptyHead(isDir, base, parts[..|parts| - 1]);
    }
  }

  /** A normal form means its stack. */
  lemma RenderMeaning(isDir: Dir -> bool, start: Dir, absolute: bool, stack: seq<string>)
    requires Normal(absolute, stack)
    ensures Reach(isDir, start, Render(absolute, stack)) == Walk(isDir, Base(start, absolute), stack)
  {
    var base, tail := Base(start, absolute), JoinedParts(stack);
    ReadBack(absolute, stack);
    hide Normal, Render, IsAbsolute, Split, Walk;
    WalkEmptyHead(isDir, base, tail);
    WalkEmptyHead(isDir, base, []);
    assert [""] + [] == [""];
    assert [] + tail == tail;
  }

  /** Components that lead somewhere lead to the same directory once normalised. */
  lemma ReachPreserved(isDir: Dir -> bool, start: Dir, path: string)
    requires Reach(isDir, start, path).Some?
    ensures Reach(isDir, start, Normalized(path)) == Reach(isDir, start, path)
  {
    hide Normal, IsAbsolute, Split, Walk, Reduce, AllPlain, Render;
    SplitIsPlain(path);
    ComponentsNormal(path);
    ReduceMeaning(isDir, Base(start, IsAbsolute(path)), IsAbsolute(path), Split(path));
    RenderMeaning(isDir, start, IsAbsolute(path), Components(path));
  }

  /** Something is left of the path: it is absolute, or its components do not all cancel. */
  predicate Remains(path: string) {
    IsAbsolute(path) || Components(path) != []
  }

  lemma EmptyIffNothingRemains(path: string)
    ensures Normalized(path) == "" <==> !Remains(path)
  {
    ComponentsNormal(path);
    var stack := Components(path);
    if stack != [] {
      assert IsComponent(stack[0]);
    }
  }

  /**
   * In every tree and from every working directory, a path that names a directory names the same
   * one once normalised if and only if something of it remains. Otherwise its normal form is the
   * empty text, which names nothing.
   */
  lemma MeaningPreserved(isDir: Dir -> bool, start: Dir, path: string)
    requires Resolve(isDir, start, path).Some?
    ensures Resolve(isDir, start, Normalized(path)) == Resolve(isDir, start, path) <==> Remains(path)
  {
    hide Reach, Normalized, Remains;
    ReachPreserved(isDir, start, path);
    EmptyIffNothingRemains(path);
  }

  /** The working directory itself is lost: "." names it in every tree, its normal form nothing. */
  lemma WorkingDirectoryIsLost(isDir: Dir -> bool, start: Dir)
    ensures Resolve(isDir, start, ".") == Some(start)
    ensures Normalized(".") == "" && Resolve(isDir, start, Normalized(".")) == None
  {
    SplitOnePart(".");
    assert ["."][..0] == [];
    assert Walk(isDir, start, []) == Some(start);
    assert Reduce(false, []) == [];
  }

  // ---------------------------------------------------------------------------
  // Paths that name nothing
  // ---------------------------------------------------------------------------

  /** Where the components lead when every directory exists. */
  function Follow(start: Dir, parts: seq<string>): Dir {
    if parts == [] then start
    else
      var before, part := Follow(start, parts[..|parts| - 1]), parts[|parts| - 1];
      if part == "" || part == "." then before
      else if part == ".." then Parent(before)
      else before + [part]
  }

  predicate Moves(part: string) {
    part != "" && part != "." && part != ".."
  }

  /** Every directory that the path goes down into exists. */
  predicate EntersExisting(isDir: Dir -> bool, start: Dir, parts: seq<string>) {
    forall i {:trigger parts[i]} :: 0 <= i < |parts| && Moves(parts[i]) ==> isDir(Follow(start, parts[..i + 1]))
  }

  lemma EntersLast(isDir: Dir -> bool, start: Dir, init: seq<string>, last: string)
    ensures var parts := init + [last];
      EntersExisting(isDir, start, parts)
      <==> EntersExisting(isDir, start, init) && (Moves(last) ==> isDir(Follow(start, parts)))
  {
    hide Follow, Moves;
    var parts := init + [last];
    assert parts[..|init| + 1] == parts && parts[|init|] == last;
    forall i | 0 <= i < |init| ensures parts[..i + 1] == init[..i + 1] && parts[i] == init[i] {
    }
    if EntersExisting(isDir, start, parts) {
      forall i | 0 <= i < |init| && Moves(init[i]) ensures isDir(Follow(start, init[..i + 1])) {
        assert Moves(parts[i]);
      }
    }
  }

  lemma {:induction false} WalkIffExisting(isDir: Dir -> bool, start: Dir, parts: seq<string>)
    ensures Walk(isDir, start, parts)
         == if EntersExisting(isDir, start, parts) then Some(Follow(start, parts)) else None
  {
    if parts != [] {
      hide EntersExisting;
      var init, last := parts[..|parts| - 1], parts[|parts| - 1];
      WalkIffExisting(isDir, start, init);
      EntersLast(isDir, start, init, last);
      assert init + [last] == parts;
    }
  }

  function Directory(start: Dir, path: string): Dir {
    Follow(Base(start, IsAbsolute(path)), Split(path))
  }

  /** The path is not empty and every directory that it enters exists. */
  ghost predicate Named(isDir: Dir -> bool, start: Dir, path: string) {
    path != "" && EntersExisting(isDir, Base(start, IsAbsolute(path)), Split(path))
  }

  /** The same for its normal form, read off the components. */
  ghost predicate NormallyNamed(isDir: Dir -> bool, start: Dir, path: string) {
    Remains(path) && EntersExisting(isDir, Base(start, IsAbsolute(path)), Components(path))
  }

  predicate Everywhere(dir: Dir) {
    true
  }

  /** Read as text alone, a path and its normal form lead to the same directory, whatever exists. */
  lemma DirectoryPreserved(start: Dir, path: string)
    ensures Directory(start, Normalized(path)) == Directory(start, path)
  {
    hide Normalized, Walk, Follow, Split, IsAbsolute;
    var normal := Normalized(path);
    WalkIffExisting(Everywhere, Base(start, IsAbsolute(path)), Split(path));
    WalkIffExisting(Everywhere, Base(start, IsAbsolute(normal)), Split(normal));
    ReachPreserved(Everywhere, start, path);
  }

  lemma ResolvesIff(isDir: Dir -> bool, start: Dir, path: string)
    ensures Resolve(isDir, start, path).Some? <==> Named(isDir, start, path)
    ensures Resolve(isDir, start, Normalized(path)).Some? <==> NormallyNamed(isDir, start, path)
  {
    hide Walk, Follow, Split, IsAbsolute, EntersExisting, Components, Render, Normal, Remains;
    var base, stack := Base(start, IsAbsolute(path)), Components(path);
    WalkIffExisting(isDir, base, Split(path));
    ComponentsNormal(path);
    EmptyIffNothingRemains(path);
    RenderMeaning(isDir, start, IsAbsolute(path), stack);
    WalkIffExisting(isDir, base, stack);
  }

  /**
   * A path that goes down into a missing directory and up again names nothing, and its normal
   * form does not show it. In every tree, path and normal form agree exactly when the path names
   * a directory and something of it remains, or neither of the two names one.
   */
  lemma AgreesIff(isDir: Dir -> bool, start: Dir, path: string)
    ensures Resolve(isDir, start, Normalized(path)) == Resolve(isDir, start, path)
       <==> if Named(isDir, start, path) then Remains(path) else !NormallyNamed(isDir, start, path)
  {
    hide Resolve, Normalized, Named, NormallyNamed, Remains;
    ResolvesIff(isDir, start, path);
    if Named(isDir, start, path) {
      MeaningPreserved(isDir, start, path);
    }
  }

  lemma MissingDirectoryIsHidden()
    ensures var onlyRoot := (dir: Dir) => dir == [];
      && Resolve(onlyRoot, [], "/x/..") == None
      && Normalized("/x/..") == "/"
      && Resolve(onlyRoot, [], "/") == Some([])
  {
    var onlyRoot := (dir: Dir) => dir == [];
    assert "/x/.." == "/" + ("x" + "/" + "..");
    SplitSlash("x" + "/" + "..");
    SplitHead("x", "..");
    SplitOnePart("..");
    var parts := ["", "x", ".."];
    assert Split("/x/..") == parts;
    assert parts[..2] == ["", "x"] && parts[..2][..1] == [""] && [""][..0] == [];
    assert Reduce(true, [""]) == [];
    assert Reduce(true, ["", "x"]) == ["x"];
    assert Walk(onlyRoot, [], [""]) == Some([]);
    assert Walk(onlyRoot, [], ["", "x"]) == None;
    SplitSlash("");
    assert "/" + "" == "/";
    assert Split("/") == ["", ""];
    assert ["", ""][..1] == [""];
  }

  // ---------------------------------------------------------------------------
  // The normal form is canonical
  // ---------------------------------------------------------------------------

  /** The first `ups` components are the ".." ones. */
  ghost predicate Climbs(stack: seq<string>, ups: nat) {
    ups <= |stack| && forall i :: 0 <= i < |stack| ==> (stack[i] == ".." <==> i < ups)
  }

  lemma {:induction false} NormalClimbs(stack: seq<string>) returns (ups: nat)
    requires UpOnlyLeading(stack)
    ensures Climbs(stack, ups)
  {
    ups := 0;
    if stack != [] {
      var n := |stack| - 1;
      if stack[n] == ".." {
        ups := n + 1;
      } else {
        assert UpOnlyLeading(stack[..n]);
        ups := NormalClimbs(stack[..n]);
        assert forall i :: 0 <= i < n ==> stack[i] == stack[..n][i];
      }
    }
  }

  /** A normal stack climbs `ups` levels and then goes down its names. */
  lemma {:induction false} FollowNormal(start: Dir, stack: seq<string>, ups: nat)
    requires AllComponents(stack) && Climbs(stack, ups) && ups <= |start|
    ensures Follow(start, stack) == start[..|start| - ups] + stack[ups..]
  {
    if stack == [] {
      assert start[..|start|] == start;
    } else {
      var n := |stack| - 1;
      var init, last := stack[..n], stack[n];
      assert IsComponent(last);
      if ups == n + 1 {
        FollowNormal(start, init, n);
        assert start[..|start| - n][..|start| - n - 1] == start[..|start| - ups];
      } else {
        FollowNormal(start, init, ups);
        assert init[ups..] + [last] == stack[ups..];
      }
    }
  }

  function Repeat(name: string, n: nat): (dir: Dir)
    ensures |dir| == n && forall i :: 0 <= i < n ==> dir[i] == name
  {
    seq(n, _ => name)
  }

  /** A name longer than all of the given ones. */
  lemma {:induction false} NewName(stack: seq<string>) returns (name: string)
    requires AllComponents(stack)
    ensures IsName(name) && name !in stack
    ensures forall i :: 0 <= i < |stack| ==> |stack[i]| < |name|
  {
    if stack == [] {
      name := "x";
    } else {
      var n := |stack| - 1;
      var shorter := NewName(stack[..n]);
      assert forall i :: 0 <= i < n ==> stack[i] == stack[..n][i];
      assert IsComponent(stack[n]);
      name := stack[n] + shorter + "xx";
    }
  }

  /** Two climbs that agree from deep enough are equal, unless they use the names they start among. */
  lemma SameClimb(x: string, depth: nat, s: seq<string>, u: nat, t: seq<string>, v: nat)
    requires Climbs(s, u) && Climbs(t, v) && u <= v < depth
    requires Repeat(x, depth)[..depth - u] + s[u..] == Repeat(x, depth)[..depth - v] + t[v..]
    ensures s == t || x in t
  {
    var left, right := Repeat(x, depth)[..depth - u] + s[u..], Repeat(x, depth)[..depth - v] + t[v..];
    if u < v {
      assert left[depth - v] == x;
      assert |right| == |left|;
      assert right[depth - v] == t[v];
    } else {
      assert left[depth - u..] == s[u..] && right[depth - u..] == t[u..];
      assert |s| == |t|;
      forall i | 0 <= i < |s| ensures s[i] == t[i] {
        if i >= u {
          assert s[i] == s[u..][i - u] && t[i] == t[u..][i - u];
        }
      }
    }
  }

  ghost predicate SameMeaning(p: string, q: string) {
    forall start :: IsDir(start) ==> Directory(start, p) == Directory(start, q)
  }

  /** Where a normalised path leads, from its components. */
  lemma DirectoryOfComponents(start: Dir, path: string)
    ensures Directory(start, path) == Follow(Base(start, IsAbsolute(path)), Components(path))
  {
    hide Normal, Walk, Follow, Split, IsAbsolute, Components, Render;
    var absolute, stack := IsAbsolute(path), Components(path);
    DirectoryPreserved(start, path);
    ComponentsNormal(path);
    RenderMeaning(Everywhere, start, absolute, stack);
    ReadBack(absolute, stack);
    var normal := Normalized(path);
    WalkIffExisting(Everywhere, Base(start, absolute), Split(normal));
    WalkIffExisting(Everywhere, Base(start, absolute), stack);
  }

  /** An absolute and a relative path lead apart from some directory. */
  lemma AbsoluteIsNotRelative(p: string, q: string)
    requires IsAbsolute(p) && !IsAbsolute(q)
    ensures !SameMeaning(p, q)
  {
    var s, t := Components(p), Components(q);
    ComponentsNormal(p);
    ComponentsNormal(q);
    assert Climbs(s, 0) by {
      forall i | 0 <= i < |s| ensures s[i] != ".." {
        assert s[i] in s;
      }
    }
    var v := NormalClimbs(t);
    var x := NewName(s);
    hide Components, UpOnlyLeading, Follow;
    var start := Repeat(x, v + 1);
    assert IsDir(start);
    DirectoryOfComponents(start, p);
    DirectoryOfComponents(start, q);
    FollowNormal([], s, 0);
    FollowNormal(start, t, v);
    assert Directory(start, q)[0] == x;
    assert Directory(start, p) == s;
  }

  ghost predicate FollowAlike(s: seq<string>, t: seq<string>) {
    forall start :: IsDir(start) ==> Follow(start, s) == Follow(start, t)
  }

  lemma AlikeAreEqual(s: seq<string>, t: seq<string>, u: nat, v: nat)
    requires AllComponents(s) && AllComponents(t) && Climbs(s, u) && Climbs(t, v) && u <= v
    requires FollowAlike(s, t)
    ensures s == t
  {
    var x := NewName(t);
    var depth := v + 1;
    var start := Repeat(x, depth);
    assert IsDir(start);
    hide IsDir, AllComponents, Climbs, Follow;
    FollowNormal(start, s, u);
    FollowNormal(start, t, v);
    SameClimb(x, depth, s, u, t, v);
  }

  lemma RelativeAreEqual(p: string, q: string)
    requires !IsAbsolute(p) && !IsAbsolute(q) && SameMeaning(p, q)
    ensures Components(p) == Components(q)
  {
    hide Components, UpOnlyLeading, AllComponents, Follow, Directory, IsAbsolute, Climbs, IsDir;
    var s, t := Components(p), Components(q);
    ComponentsNormal(p);
    ComponentsNormal(q);
    var u := NormalClimbs(s);
    var v := NormalClimbs(t);
    forall start | IsDir(start) ensures Follow(start, s) == Follow(start, t) {
      DirectoryOfComponents(start, p);
      DirectoryOfComponents(start, q);
    }
    if u <= v {
      AlikeAreEqual(s, t, u, v);
    } else {
      AlikeAreEqual(t, s, v, u);
    }
  }

  lemma AbsoluteAreEqual(p: string, q: string)
    requires IsAbsolute(p) && IsAbsolute(q) && SameMeaning(p, q)
    ensures Components(p) == Components(q)
  {
    forall path | path in [p, q] ensures Directory([], path) == Components(path) {
      var s := Components(path);
      ComponentsNormal(path);
      assert Climbs(s, 0) by {
        forall i | 0 <= i < |s| ensures s[i] != ".." {
          assert s[i] in s;
        }
      }
      hide Components, Follow;
      DirectoryOfComponents([], path);
      FollowNormal([], s, 0);
    }
    assert p in [p, q] && q in [p, q];
    assert IsDir([]);
  }

  /**
   * Two paths have the same normal form exactly when they lead to the same directory from every
   * working directory: nothing less and nothing more is identified.
   */
  lemma Canonical(p: string, q: string)
    ensures Normalized(p) == Normalized(q) <==> SameMeaning(p, q)
  {
    hide Directory, Components, IsAbsolute, IsDir;
    if Normalized(p) == Normalized(q) {
      forall start | IsDir(start) ensures Directory(start, p) == Directory(start, q) {
        DirectoryPreserved(start, p);
        DirectoryPreserved(start, q);
      }
    }
    if SameMeaning(p, q) {
      if IsAbsolute(p) && IsAbsolute(q) {
        AbsoluteAreEqual(p, q);
      } else if IsAbsolute(p) {
        AbsoluteIsNotRelative(p, q);
      } else if IsAbsolute(q) {
        AbsoluteIsNotRelative(q, p);
      } else {
        RelativeAreEqual(p, q);
      }
    }
  }
}
