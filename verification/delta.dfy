/** Delta packaging and application: what the packager writes, the applier turns back into the target tree. */
module Delta {
  import opened Text

  type Files = map<Bytes, Bytes>

  /** A directory tree: contents by slash path, and the directories below the root. */
  datatype Tree = Tree(files: Files, dirs: set<Bytes>)

  /** A zip member with the size its header claims. */
  datatype Member = Member(name: Bytes, content: Bytes, header: nat)

  const LISTING_NAME: Bytes := ".connective-delta-files"
  const MAX_LISTING := 8 * 1024 * 1024
  const MAX_TOTAL := 1024 * 1024 * 1024
  const MAX_FILES := 10000

  // ---------------------------------------------------------------- paths

  predicate IsProper(c: Bytes) { c != [] && c != "." && c != ".." }

  /** A relative path already in its shortest form. */
  predicate IsCleanPath(p: Bytes) { forall c :: c in Split(p, '/') ==> IsProper(c) }

  /** How filepath.Clean works off the components, those kept so far in `out`. */
  function CleanParts(parts: seq<Bytes>, out: seq<Bytes>, rooted: bool): seq<Bytes>
    decreases |parts|
  {
    if parts == [] then out
    else
      var p := parts[0];
      CleanParts(parts[1..],
        if p == [] || p == "." then out
        else if p != ".." then out + [p]
        else if out != [] && out[|out| - 1] != ".." then out[..|out| - 1]
        else if rooted then out
        else out + [p],
        rooted)
  }

  /** filepath.Clean on unix. */
  function CleanPath(s: Bytes): Bytes {
    var rooted := s != [] && s[0] == '/';
    var body := Join(CleanParts(Split(s, '/'), [], rooted), ['/']);
    if rooted then ['/'] + body else if body == [] then ['.'] else body
  }

  predicate IsAbs(p: Bytes) { p != [] && p[0] == '/' }

  /** A cleaned path that leaves its directory. */
  predicate Escapes(p: Bytes) { p == ".." || "../" <= p }

  /** `d` is a directory on the way to `p`. */
  predicate IsAbove(d: Bytes, p: Bytes) { 0 < |d| < |p| && p[..|d|] == d && p[|d|] == '/' }

  function Above(p: Bytes): (ds: set<Bytes>)
    ensures forall d :: d in ds <==> IsAbove(d, p)
  {
    set i | 0 < i < |p| && p[i] == '/' :: p[..i]
  }

  // ---------------------------------------------------------------- the packager

  /** diffTrees: files of the target that are new or differ by hash (taken as injective). */
  function Changed(from: Files, to: Files, order: seq<Bytes>): (paths: seq<Bytes>)
    requires forall p :: p in order ==> p in to
    ensures forall p :: p in paths ==> p in to
  {
    if order == [] then []
    else
      var rest := Changed(from, to, order[1..]);
      if order[0] in from && from[order[0]] == to[order[0]] then rest else [order[0]] + rest
  }

  function Pack(to: Files, paths: seq<Bytes>): (ms: seq<Member>)
    requires forall p :: p in paths ==> p in to
    ensures |ms| == |paths|
    ensures forall i :: 0 <= i < |paths| ==> ms[i] == Member(paths[i], to[paths[i]], |to[paths[i]]|)
  {
    seq(|paths|, i requires 0 <= i < |paths| => Member(paths[i], to[paths[i]], |to[paths[i]]|))
  }

  /** The listing member: every file of the target, one path a line. */
  function ListingMember(order: seq<Bytes>): Member {
    var text := Join(order, ['\n']);
    Member(LISTING_NAME, text, |text|)
  }

  /** genDelta; `order` is the walk order of the target's files. Refused when nothing changed. */
  function PackDelta(from: Files, to: Files, order: seq<Bytes>): Option<seq<Member>>
    requires forall p :: p in order ==> p in to
  {
    var changed := Changed(from, to, order);
    ChangedIsTarget(from, to, order);
    if changed == [] then None else Some([ListingMember(order)] + Pack(to, changed))
  }

  lemma {:induction false} ChangedIsTarget(from: Files, to: Files, order: seq<Bytes>)
    requires forall p :: p in order ==> p in to
    ensures forall p :: p in Changed(from, to, order) <==>
              p in order && !(p in from && from[p] == to[p])
  {
    if order != [] {
      ChangedIsTarget(from, to, order[1..]);
      assert order == [order[0]] + order[1..];
    }
  }

  lemma ChangedStep(from: Files, to: Files, order: seq<Bytes>, i: nat, changed: seq<Bytes>)
    requires i < |order| && forall p :: p in order ==> p in to
    ensures var rel := order[i];
            changed + Changed(from, to, order[i..])
            == (if rel !in from || from[rel] != to[rel] then changed + [rel] else changed)
               + Changed(from, to, order[i + 1..])
  {
    assert order[i..][0] == order[i] && order[i..][1..] == order[i + 1..];
    var rest := Changed(from, to, order[i + 1..]);
    assert changed + ([order[i]] + rest) == changed + [order[i]] + rest;
  }

  /** diffTrees as its loop. */
  method DiffTrees(from: Files, to: Files, order: seq<Bytes>) returns (changed: seq<Bytes>)
    requires forall p :: p in order ==> p in to
    ensures changed == Changed(from, to, order)
  {
    assert order[0..] == order && order[|order|..] == [];
    assert Changed(from, to, []) == [];
    hide Changed;
    changed := [];
    for i := 0 to |order|
      invariant changed + Changed(from, to, order[i..]) == Changed(from, to, order)
    {
      var rel := order[i];
      ChangedStep(from, to, order, i, changed);
      if rel !in from || from[rel] != to[rel] {
        changed := changed + [rel];
      }
    }
  }

  /** genDelta: the listing first, then each changed file. */
  method GenDelta(from: Files, to: Files, order: seq<Bytes>) returns (zip: Option<seq<Member>>)
    requires forall p :: p in order ==> p in to
    ensures zip == PackDelta(from, to, order)
  {
    var changed := DiffTrees(from, to, order);
    if |changed| == 0 {
      return None;
    }
    ChangedIsTarget(from, to, order);
    hide Changed, ListingMember;
    ghost var files := Pack(to, changed);
    hide Pack;
    var members := [ListingMember(order)];
    for i := 0 to |changed|
      invariant members == [ListingMember(order)] + files[..i]
    {
      hide *;
      assert files[..i + 1] == files[..i] + [files[i]];
      members := members + [Member(changed[i], to[changed[i]], |to[changed[i]]|)];
    }
    assert files[..|changed|] == files;
    return Some(members);
  }

  // ---------------------------------------------------------------- the applier

  /** readDeltaListing: the cleaned paths, or None for a listing that is refused. */
  function ListingPaths(lines: seq<Bytes>): Option<seq<Bytes>> {
    if lines == [] then Some([])
    else
      var line := TrimSpace(lines[0]);
      var rest := ListingPaths(lines[1..]);
      if line == [] then rest
      else
        var clean := CleanPath(line);
        if IsAbs(clean) || Escapes(clean) || rest.None? then None else Some([clean] + rest.value)
  }

  function ReadListing(m: Member): Option<seq<Bytes>> {
    if m.header > MAX_LISTING || |m.content| > MAX_LISTING then None
    else
      var paths := ListingPaths(Split(m.content, '\n'));
      if paths.Some? && |paths.value| > MAX_FILES then None else paths
  }

  /** What is left of the extraction budget. */
  datatype Budget = Budget(remaining: nat, files: nat)

  /** os.MkdirAll: fails on a file in the way. */
  function MkdirAll(t: Tree, p: Bytes): Option<Tree> {
    if p == [] then Some(t)
    else if p in t.files || exists d :: d in Above(p) && d in t.files then None
    else Some(t.(dirs := t.dirs + Above(p) + {p}))
  }

  function Parent(p: Bytes): Bytes {
    var i := LastIndex(p, '/');
    if i < 0 then [] else p[..i]
  }

  /** unzipOneBudgeted: the tree and budget after one member, None on any refusal. */
  function Unzip(t: Tree, m: Member, b: Budget): Option<(Tree, Budget)> {
    var rel := CleanPath(m.name);
    if IsAbs(m.name) || rel == "." || Escapes(rel) || b.files + 1 > MAX_FILES then None
    else if m.name != [] && m.name[|m.name| - 1] == '/' then
      var made := MkdirAll(t, rel);
      if made.None? then None else Some((made.value, Budget(b.remaining, b.files + 1)))
    else if m.header > b.remaining then None
    else
      var made := MkdirAll(t, Parent(rel));
      if made.None? || rel in made.value.dirs || |m.content| > b.remaining then None
      else Some((made.value.(files := made.value.files[rel := m.content]),
                 Budget(b.remaining - |m.content|, b.files + 1)))
  }

  /** The overlay loop; the listing is metadata and never extracted. */
  function Overlay(t: Tree, ms: seq<Member>, b: Budget): Option<Tree>
    decreases |ms|
  {
    if ms == [] then Some(t)
    else if ms[0].name == LISTING_NAME then Overlay(t, ms[1..], b)
    else
      var one := Unzip(t, ms[0], b);
      if one.None? then None else Overlay(one.value.0, ms[1..], one.value.1)
  }

  predicate HasBelow(t: Tree, d: Bytes) {
    (exists f :: f in t.files && IsAbove(d, f)) || (exists e :: e in t.dirs && IsAbove(d, e))
  }

  /** The directory pass of dropMissing, last directory first: a removal fails on what is not empty. */
  function RemoveEmpty(t: Tree, walk: seq<Bytes>): Tree
    decreases |walk|
  {
    if walk == [] then t
    else
      var d := walk[|walk| - 1];
      RemoveEmpty(if HasBelow(t, d) then t else t.(dirs := t.dirs - {d}), walk[..|walk| - 1])
  }

  function Keep(files: Files, keep: seq<Bytes>): Files { map p | p in files && p in keep :: files[p] }

  function DropMissing(t: Tree, listing: seq<Bytes>, walk: seq<Bytes>): Tree {
    RemoveEmpty(t.(files := Keep(t.files, listing)), walk)
  }

  function FindListing(ms: seq<Member>): Option<Member> {
    if ms == [] then None else if ms[0].name == LISTING_NAME then Some(ms[0]) else FindListing(ms[1..])
  }

  /** ZipOverlayApplier.Apply; `walk` gives the order in which a tree's directories are visited. */
  function Apply(current: Tree, ms: seq<Member>, walk: Tree -> seq<Bytes>): Option<Tree> {
    var found := FindListing(ms);
    var listing := if found.None? then Some([]) else ReadListing(found.value);
    if listing.None? then None
    else
      var over := Overlay(current, ms, Budget(MAX_TOTAL, 0));
      if over.None? || listing.value == [] then over
      else Some(DropMissing(over.value, listing.value, walk(over.value)))
  }

  // ---------------------------------------------------------------- which names are safe

  /** Walking down the components from `depth` levels below the root, a step leads above it. */
  predicate Climbs(parts: seq<Bytes>, depth: nat)
    decreases |parts|
  {
    parts != [] &&
    if parts[0] == [] || parts[0] == "." then Climbs(parts[1..], depth)
    else if parts[0] == ".." then depth == 0 || Climbs(parts[1..], depth - 1)
    else Climbs(parts[1..], depth + 1)
  }

  predicate AllProper(parts: seq<Bytes>) { forall c :: c in parts ==> IsProper(c) }

  /** Once the kept components start with "..", they go on to. */
  lemma {:induction false} DotsStay(parts: seq<Bytes>, out: seq<Bytes>)
    requires out != [] && out[0] == ".."
    ensures var r := CleanParts(parts, out, false); r != [] && r[0] == ".."
    decreases |parts|
  {
    if parts != [] {
      var p := parts[0];
      if p == ".." && out[|out| - 1] != ".." {
        DotsStay(parts[1..], out[..|out| - 1]);
      } else if p == [] || p == "." {
        DotsStay(parts[1..], out);
      } else {
        DotsStay(parts[1..], out + [p]);
      }
    }
  }

  /** The kept components start with ".." if and only if the walk climbs above its root; otherwise all are proper. */
  lemma {:induction false} CleaningClimbsExactly(parts: seq<Bytes>, out: seq<Bytes>)
    requires AllProper(out)
    ensures var r := CleanParts(parts, out, false);
            if Climbs(parts, |out|) then r != [] && r[0] == ".." else AllProper(r)
    decreases |parts|
  {
    if parts != [] {
      var p := parts[0];
      if p == [] || p == "." {
        CleaningClimbsExactly(parts[1..], out);
      } else if p != ".." {
        CleaningClimbsExactly(parts[1..], out + [p]);
      } else if out == [] {
        DotsStay(parts[1..], [p]);
        assert out + [p] == [p];
      } else {
        assert out[|out| - 1] in out;
        CleaningClimbsExactly(parts[1..], out[..|out| - 1]);
      }
    }
  }

  lemma {:induction false} KeptHaveNoSlash(parts: seq<Bytes>, out: seq<Bytes>, rooted: bool)
    requires (forall c :: c in parts ==> '/' !in c) && (forall c :: c in out ==> '/' !in c)
    ensures forall c :: c in CleanParts(parts, out, rooted) ==> '/' !in c
    decreases |parts|
  {
    if parts != [] {
      var p := parts[0];
      KeptHaveNoSlash(parts[1..], out, rooted);
      KeptHaveNoSlash(parts[1..], out + [p], rooted);
      if out != [] {
        KeptHaveNoSlash(parts[1..], out[..|out| - 1], rooted);
      }
    }
  }

  /**
   * A relative name leaves its directory if and only if walking it leads above the root at some point; any other
   * one cleans to a path of proper components, or to nothing but ".".
   */
  lemma EscapesExactly(name: Bytes)
    requires !IsAbs(name)
    ensures Escapes(CleanPath(name)) <==> Climbs(Split(name, '/'), 0)
    ensures !Climbs(Split(name, '/'), 0) ==> CleanPath(name) == "." || IsCleanPath(CleanPath(name))
  {
    var parts := Split(name, '/');
    var kept := CleanParts(parts, [], false);
    CleaningClimbsExactly(parts, []);
    KeptHaveNoSlash(parts, [], false);
    assert CleanPath(name) == if Join(kept, ['/']) == [] then "." else Join(kept, ['/']);
    hide CleanParts, Climbs, CleanPath, Split, Join;
    if kept == [] {
      JoinNothing();
    } else {
      SplitJoin(kept, '/');
      var path := Join(kept, ['/']);
      if AllProper(kept) {
        CleanEnds(path);
      } else {
        JoinStartsWithDots(kept);
      }
    }
  }

  lemma JoinNothing()
    ensures Join([], ['/']) == [] && !Escapes(".")
  {
  }

  lemma JoinStartsWithDots(parts: seq<Bytes>)
    requires parts != [] && parts[0] == ".."
    ensures Escapes(Join(parts, ['/'])) && Join(parts, ['/']) != []
  {
    if |parts| > 1 {
      assert Join(parts, ['/']) == ".." + ['/'] + Join(parts[1..], ['/']);
    }
  }

  /** A member with an absolute name, or one that climbs out of the tree, is refused. */
  lemma UnsafeNamesAreRefused(t: Tree, m: Member, b: Budget)
    requires IsAbs(m.name) || Climbs(Split(m.name, '/'), 0)
    ensures Unzip(t, m, b).None?
  {
    if !IsAbs(m.name) {
      EscapesExactly(m.name);
    }
    hide CleanPath, Climbs, Split, Escapes, MkdirAll;
  }

  /** A member that is accepted is a file at its cleaned name, or a directory there; no other file changes. */
  lemma MemberLandsWhereItSays(t: Tree, m: Member, b: Budget)
    requires Unzip(t, m, b).Some?
    ensures var (u, c) := Unzip(t, m, b).value; var rel := CleanPath(m.name);
            && IsCleanPath(rel) && c.files == b.files + 1 <= 10000 && t.dirs <= u.dirs
            && (forall d :: IsAbove(d, rel) ==> d in u.dirs)
            && if m.name[|m.name| - 1] == '/' then u.files == t.files && rel in u.dirs && c.remaining == b.remaining
               else u.files == t.files[rel := m.content] && c.remaining == b.remaining - |m.content|
  {
    EscapesExactly(m.name);
    var rel := CleanPath(m.name);
    hide CleanPath, Climbs, Split, IsCleanPath;
    NameIsThere(m.name);
    if m.name[|m.name| - 1] != '/' {
      forall d | IsAbove(d, rel) ensures d in MkdirAll(t, Parent(rel)).value.dirs {
        AboveParent(d, rel);
      }
      hide Parent, IsAbove;
    }
  }

  /** No file stands where a directory of the path has to be. */
  predicate IsClear(t: Tree, rel: Bytes) { forall d :: d in Above(rel) ==> d !in t.files }

  /** A member with a safe name is taken exactly when its place is free and it fits what is left of the budget. */
  lemma MemberIsTakenExactly(t: Tree, m: Member, b: Budget)
    requires !IsAbs(m.name) && m.name != [] && IsCleanPath(CleanPath(m.name))
    ensures var rel := CleanPath(m.name);
            Unzip(t, m, b).Some? <==>
              && b.files < 10000 && IsClear(t, rel)
              && if m.name[|m.name| - 1] == '/' then rel !in t.files
                 else rel !in t.dirs && m.header <= b.remaining && |m.content| <= b.remaining
  {
    var rel := CleanPath(m.name);
    CleanEnds(rel);
    MkdirParent(t, rel);
    assert !IsAbove(rel, rel);
    hide CleanPath, IsCleanPath, IsAbove, Parent, IsAbs, Escapes;
    if MkdirAll(t, Parent(rel)).Some? {
      MkdirGrows(t, Parent(rel));
    }
    if m.name[|m.name| - 1] != '/' {
      hide MkdirAll;
    }
  }

  /** A line of the listing that names something outside the tree. */
  predicate IsBadLine(line: Bytes) {
    var name := TrimSpace(line);
    name != [] && (IsAbs(CleanPath(name)) || Escapes(CleanPath(name)))
  }

  /** A listing is refused exactly for such a line; otherwise it names the cleaned paths of its lines that are not blank. */
  lemma {:induction false} ListingIsSafe(lines: seq<Bytes>)
    ensures ListingPaths(lines).None? <==> exists l :: l in lines && IsBadLine(l)
    ensures ListingPaths(lines).Some? ==>
              forall p :: p in ListingPaths(lines).value <==>
                exists l :: l in lines && TrimSpace(l) != [] && p == CleanPath(TrimSpace(l))
    decreases |lines|
  {
    hide TrimSpace, CleanPath, IsAbs, Escapes;
    if lines != [] {
      ListingIsSafe(lines[1..]);
      assert lines == [lines[0]] + lines[1..];
      assert lines[0] in lines;
    }
  }

  /** Reading a listing: within both limits, and safe. */
  lemma ReadListingExactly(m: Member)
    ensures ReadListing(m).Some? <==>
              && m.header <= 8_388_608 && |m.content| <= 8_388_608
              && (forall l :: l in Split(m.content, '\n') ==> !IsBadLine(l))
              && var paths := ListingPaths(Split(m.content, '\n')); paths.Some? ==> |paths.value| <= 10_000
  {
    ListingIsSafe(Split(m.content, '\n'));
    hide ListingPaths, Split, IsBadLine;
  }

  lemma NameIsThere(name: Bytes)
    requires CleanPath(name) != "."
    ensures name != []
  {
    SplitEmpty();
  }

  // ---------------------------------------------------------------- clean names survive the listing

  lemma {:induction false} CleanPartsKeepsProper(parts: seq<Bytes>, out: seq<Bytes>, rooted: bool)
    requires forall c :: c in parts ==> IsProper(c)
    ensures CleanParts(parts, out, rooted) == out + parts
    decreases |parts|
  {
    if parts == [] {
      assert out + parts == out;
    } else {
      assert parts[0] in parts;
      CleanPartsKeepsProper(parts[1..], out + [parts[0]], rooted);
      assert out + [parts[0]] + parts[1..] == out + parts;
    }
  }

  lemma {:induction false} JoinSplit(s: Bytes, sep: Byte)
    ensures Join(Split(s, sep), [sep]) == s
    decreases |s|
  {
    var i := FirstIndex(s, sep);
    if i == |s| {
      FirstIndexAbsentSplit(s, sep);
    } else {
      JoinSplit(s[i + 1..], sep);
      var rest := Split(s[i + 1..], sep);
      assert Split(s, sep) == [s[..i]] + rest;
      assert ([s[..i]] + rest)[1..] == rest;
      assert s[..i] + [sep] + s[i + 1..] == s;
    }
  }

  lemma FirstIndexAbsentSplit(s: Bytes, sep: Byte)
    requires FirstIndex(s, sep) == |s|
    ensures Split(s, sep) == [s] && Join([s], [sep]) == s
  {
  }

  lemma CleanPathKeepsClean(p: Bytes)
    requires IsCleanPath(p)
    ensures CleanPath(p) == p && p != [] && !IsAbs(p) && !Escapes(p) && p != "." && p[|p| - 1] != '/'
  {
    hide Split, CleanParts;
    CleanEnds(p);
    CleanPartsKeepsProper(Split(p, '/'), [], false);
    assert [] + Split(p, '/') == Split(p, '/');
    JoinSplit(p, '/');
  }

  lemma CleanEnds(p: Bytes)
    requires IsCleanPath(p)
    ensures p != [] && !IsAbs(p) && !Escapes(p) && p != "." && p[|p| - 1] != '/'
  {
    var i := FirstIndex(p, '/');
    FirstPart(p);
    SplitEmpty();
    if p != [] && p[|p| - 1] == '/' {
      LastPart(p);
    }
    assert IsProper(Split(p, '/')[0]);
    if "../" <= p {
      DotsFirst(p);
    }
  }

  lemma DotsFirst(p: Bytes)
    requires "../" <= p
    ensures p[..FirstIndex(p, '/')] == ".."
  {
    assert p[0] == '.' && p[1] == '.' && p[2] == '/';
    var i := FirstIndex(p, '/');
    assert i > 0 && i > 1;
  }

  lemma FirstPart(p: Bytes)
    ensures Split(p, '/')[0] == p[..FirstIndex(p, '/')]
  {
  }

  lemma {:induction false} LastPart(p: Bytes)
    requires p != [] && p[|p| - 1] == '/'
    ensures [] in Split(p, '/')
    decreases |p|
  {
    var i := FirstIndex(p, '/');
    var rest := p[i + 1..];
    if rest == [] {
      SplitEmpty();
    } else {
      LastPart(rest);
    }
  }

  lemma SplitEmpty()
    ensures Split([], '/') == [[]]
  {
  }

  // ---------------------------------------------------------------- names the listing can carry

  /** A clean path without line breaks or outer white space that is not the listing's own name. */
  predicate IsGoodName(p: Bytes) {
    IsCleanPath(p) && '\n' !in p && SpacePrefix(p) == 0 && SpaceSuffix(p) == 0 && p != LISTING_NAME
  }

  predicate AllGood(paths: seq<Bytes>) { forall p :: p in paths ==> IsGoodName(p) }

  /** One line of a listing, read as its own path. */
  lemma GoodLine(p: Bytes)
    requires IsGoodName(p)
    ensures TrimSpace(p) == p && p != [] && CleanPath(p) == p && !IsAbs(p) && !Escapes(p)
  {
    CleanPathKeepsClean(p);
    hide CleanPath, TrimSpace, IsCleanPath, Escapes, IsAbs;
    TrimSpaceStable(p);
  }

  lemma {:induction false} ListingOfGoodNames(order: seq<Bytes>)
    requires AllGood(order)
    ensures ListingPaths(order) == Some(order)
  {
    hide CleanPath, TrimSpace, IsGoodName, Escapes, IsAbs;
    if order != [] {
      var p := order[0];
      GoodLine(p);
      ListingOfGoodNames(order[1..]);
      assert order == [p] + order[1..];
    }
  }

  /** The listing reads back as the target's file names, unless it is over one of the limits. */
  lemma ListingRoundTrip(order: seq<Bytes>)
    requires AllGood(order) && order != []
    ensures ReadListing(ListingMember(order))
            == if |Join(order, ['\n'])| > MAX_LISTING || |order| > MAX_FILES then None else Some(order)
  {
    hide ListingPaths, Join, Split, IsCleanPath;
    assert forall p :: p in order ==> IsGoodName(p) && '\n' !in p;
    SplitJoin(order, '\n');
    ListingOfGoodNames(order);
  }

  // ---------------------------------------------------------------- the overlay

  /** Every path's directories exist, and no path is both a file and a directory. */
  ghost predicate IsTidy(t: Tree) {
    && (forall p, d :: p in t.files && IsAbove(d, p) ==> d in t.dirs)
    && (forall p, d :: p in t.dirs && IsAbove(d, p) ==> d in t.dirs)
    && (forall p :: p in t.files ==> p !in t.dirs)
  }

  lemma AboveIsTransitive(d: Bytes, e: Bytes, p: Bytes)
    requires IsAbove(d, e) && IsAbove(e, p)
    ensures IsAbove(d, p)
  {
    assert p[..|d|] == p[..|e|][..|d|];
    assert p[|d|] == p[..|e|][|d|];
  }

  lemma AboveParent(d: Bytes, p: Bytes)
    requires IsAbove(d, p)
    ensures Parent(p) == d || IsAbove(d, Parent(p))
  {
    var i := LastIndex(p, '/');
    assert i >= |d|;
    if i > |d| {
      assert p[..i][..|d|] == p[..|d|] && p[..i][|d|] == p[|d|];
    }
  }

  lemma MkdirAllIsTidy(t: Tree, p: Bytes)
    requires IsTidy(t) && MkdirAll(t, p).Some?
    ensures var m := MkdirAll(t, p).value;
            IsTidy(m) && m.files == t.files && t.dirs <= m.dirs
            && (p != [] ==> p in m.dirs && forall d :: IsAbove(d, p) ==> d in m.dirs)
  {
    var m := MkdirAll(t, p).value;
    forall q, d | q in m.dirs && IsAbove(d, q) ensures d in m.dirs {
      if q !in t.dirs && q != p {
        AboveIsTransitive(d, q, p);
      }
    }
    hide IsAbove;
  }

  lemma WriteIsTidy(t: Tree, p: Bytes, content: Bytes)
    requires IsTidy(t) && p !in t.dirs && forall d :: IsAbove(d, p) ==> d in t.dirs
    ensures IsTidy(t.(files := t.files[p := content]))
  {
    hide IsAbove;
  }

  /** A member with a clean name lands under exactly that name. */
  lemma UnzipClean(t: Tree, m: Member, b: Budget)
    requires IsTidy(t) && IsCleanPath(m.name) && Unzip(t, m, b).Some?
    ensures var o := Unzip(t, m, b).value.0;
            IsTidy(o) && o.files == t.files[m.name := m.content]
  {
    CleanPathKeepsClean(m.name);
    var q := Parent(m.name);
    MkdirAllIsTidy(t, q);
    var made := MkdirAll(t, q).value;
    forall d | IsAbove(d, m.name) ensures d in made.dirs {
      AboveParent(d, m.name);
    }
    hide IsAbove, IsTidy, CleanPath, MkdirAll, Parent, IsCleanPath;
    WriteIsTidy(made, m.name, m.content);
  }

  function Restricted(to: Files, paths: seq<Bytes>): Files { map p | p in to && p in paths :: to[p] }

  lemma RestrictedStep(files: Files, to: Files, paths: seq<Bytes>)
    requires paths != [] && paths[0] in to
    ensures files[paths[0] := to[paths[0]]] + Restricted(to, paths[1..]) == files + Restricted(to, paths)
  {
    assert paths == [paths[0]] + paths[1..];
  }

  /** The first member of a packed delta goes out under its own name. */
  lemma OverlayStep(t: Tree, to: Files, paths: seq<Bytes>, b: Budget)
    requires IsTidy(t) && paths != [] && IsGoodName(paths[0]) && forall p :: p in paths ==> p in to
    ensures var one := Unzip(t, Pack(to, paths)[0], b);
            Overlay(t, Pack(to, paths), b)
            == (if one.None? then None else Overlay(one.value.0, Pack(to, paths[1..]), one.value.1))
    ensures var one := Unzip(t, Pack(to, paths)[0], b);
            one.Some? ==> IsTidy(one.value.0) && one.value.0.files == t.files[paths[0] := to[paths[0]]]
  {
    var ms := Pack(to, paths);
    assert ms[1..] == Pack(to, paths[1..]);
    hide IsTidy, IsCleanPath, Unzip;
    if Unzip(t, ms[0], b).Some? {
      UnzipClean(t, ms[0], b);
    }
  }

  lemma {:induction false} OverlayPacked(t: Tree, to: Files, paths: seq<Bytes>, b: Budget)
    requires IsTidy(t) && AllGood(paths) && forall p :: p in paths ==> p in to
    ensures var o := Overlay(t, Pack(to, paths), b);
            o.Some? ==> IsTidy(o.value) && o.value.files == t.files + Restricted(to, paths)
    decreases |paths|
  {
    if paths == [] {
      assert t.files + Restricted(to, []) == t.files;
    } else {
      assert IsGoodName(paths[0]);
      hide IsTidy, IsGoodName, Unzip, Overlay, Pack, Restricted;
      OverlayStep(t, to, paths, b);
      var one := Unzip(t, Pack(to, paths)[0], b);
      if one.Some? {
        OverlayPacked(one.value.0, to, paths[1..], one.value.1);
        RestrictedStep(t.files, to, paths);
      }
    }
  }

  // ---------------------------------------------------------------- pruning

  ghost predicate HasFileBelow(files: Files, d: Bytes) { exists f :: f in files && IsAbove(d, f) }

  /** A directory walk: each directory once, a parent before what is below it. */
  ghost predicate IsDirWalk(walk: seq<Bytes>, dirs: set<Bytes>) {
    && (forall d :: d in walk <==> d in dirs)
    && (forall i, j :: 0 <= i < j < |walk| ==> walk[i] != walk[j] && !IsAbove(walk[j], walk[i]))
  }

  ghost predicate ParentsFirst(walk: seq<Bytes>) {
    forall i, j :: 0 <= i < j < |walk| ==> walk[i] != walk[j] && !IsAbove(walk[j], walk[i])
  }

  lemma NotInWalk(walk: seq<Bytes>, e: Bytes)
    requires walk != [] && ParentsFirst(walk) && IsAbove(walk[|walk| - 1], e)
    ensures e !in walk
  {
  }

  /** The last directory of a walk is empty exactly when no file lies below it, later ones being settled. */
  lemma LastIsEmpty(t: Tree, walk: seq<Bytes>)
    requires walk != [] && ParentsFirst(walk)
    requires forall d :: d in t.dirs ==> d in walk || HasFileBelow(t.files, d)
    ensures HasBelow(t, walk[|walk| - 1]) <==> HasFileBelow(t.files, walk[|walk| - 1])
  {
    var n := |walk| - 1;
    var d := walk[n];
    if e :| e in t.dirs && IsAbove(d, e) {
      NotInWalk(walk, e);
      var f :| f in t.files && IsAbove(e, f);
      AboveIsTransitive(d, e, f);
      assert HasFileBelow(t.files, d);
    }
  }

  lemma {:induction false} RemoveEmptyKeepsAncestors(t: Tree, walk: seq<Bytes>)
    requires ParentsFirst(walk)
    requires forall d :: d in t.dirs ==> d in walk || HasFileBelow(t.files, d)
    ensures var r := RemoveEmpty(t, walk);
            r.files == t.files && forall d :: d in r.dirs <==> d in t.dirs && HasFileBelow(t.files, d)
    decreases |walk|
  {
    if walk != [] {
      var n := |walk| - 1;
      LastIsEmpty(t, walk);
      hide HasBelow, HasFileBelow, IsAbove;
      var u := if HasBelow(t, walk[n]) then t else t.(dirs := t.dirs - {walk[n]});
      assert walk == walk[..n] + [walk[n]];
      forall d | d in u.dirs ensures d in walk[..n] || HasFileBelow(u.files, d) {}
      RemoveEmptyKeepsAncestors(u, walk[..n]);
    }
  }

  lemma {:induction false} RemoveEmptyKeepsFiles(t: Tree, walk: seq<Bytes>)
    ensures RemoveEmpty(t, walk).files == t.files
    decreases |walk|
  {
    if walk != [] {
      hide HasBelow;
      var d := walk[|walk| - 1];
      RemoveEmptyKeepsFiles(if HasBelow(t, d) then t else t.(dirs := t.dirs - {d}), walk[..|walk| - 1]);
    }
  }

  // ---------------------------------------------------------------- the round trip

  /** `order` lists exactly the files of the target. */
  ghost predicate Lists(order: seq<Bytes>, to: Files) { forall p :: p in order <==> p in to }

  lemma FindPackedListing(order: seq<Bytes>, rest: seq<Member>)
    ensures FindListing([ListingMember(order)] + rest) == Some(ListingMember(order))
  {
  }

  lemma OverlaySkipsListing(t: Tree, order: seq<Bytes>, rest: seq<Member>, b: Budget)
    ensures Overlay(t, [ListingMember(order)] + rest, b) == Overlay(t, rest, b)
  {
    assert ([ListingMember(order)] + rest)[1..] == rest;
  }

  /** The overlaid and pruned files are the target's. */
  lemma FilesAreTheTarget(from: Files, to: Files, order: seq<Bytes>)
    requires Lists(order, to)
    ensures Keep(from + Restricted(to, Changed(from, to, order)), order) == to
  {
    ChangedIsTarget(from, to, order);
    hide Changed;
    var changed := Changed(from, to, order);
    KeptAt(from, to, changed, order);
    hide Restricted, Keep;
    var kept := Keep(from + Restricted(to, changed), order);
    forall p | p in to ensures kept[p] == to[p] {}
  }

  lemma KeptAt(from: Files, to: Files, changed: seq<Bytes>, order: seq<Bytes>)
    requires Lists(order, to)
    ensures var kept := Keep(from + Restricted(to, changed), order);
            && (forall p :: p in kept ==> p in to && kept[p] == if p in changed then to[p] else from[p])
            && (forall p :: p in to && (p in from || p in changed) ==> p in kept)
  {
  }

  /** An apply of a packed delta is its overlay, pruned to the target's names. */
  lemma ApplyOfPacked(current: Tree, from: Files, to: Files, order: seq<Bytes>, walk: Tree -> seq<Bytes>)
    requires Lists(order, to) && AllGood(order)
    requires PackDelta(from, to, order).Some?
    ensures var over := Overlay(current, Pack(to, Changed(from, to, order)), Budget(MAX_TOTAL, 0));
            Apply(current, PackDelta(from, to, order).value, walk)
            == if ReadListing(ListingMember(order)).None? || over.None? then None
               else Some(DropMissing(over.value, order, walk(over.value)))
  {
    PackIsSome(from, to, order);
    var rest := Pack(to, Changed(from, to, order));
    FindPackedListing(order, rest);
    OverlaySkipsListing(current, order, rest, Budget(MAX_TOTAL, 0));
    ListingRoundTrip(order);
    hide PackDelta, FindListing, ReadListing, ListingMember, Overlay, DropMissing, Pack, Changed, AllGood, Lists;
  }

  lemma PackIsSome(from: Files, to: Files, order: seq<Bytes>)
    requires Lists(order, to) && PackDelta(from, to, order).Some?
    ensures PackDelta(from, to, order).value == [ListingMember(order)] + Pack(to, Changed(from, to, order)) && order != []
  {
    ChangedIsTarget(from, to, order);
    hide Pack, ListingMember;
  }

  /**
   * Whenever applying the packed delta to the source tree succeeds, the result holds exactly the
   * target's files with the target's contents.
   */
  lemma DeltaRoundTrip(current: Tree, to: Files, order: seq<Bytes>, walk: Tree -> seq<Bytes>)
    requires Lists(order, to) && AllGood(order) && IsTidy(current)
    requires PackDelta(current.files, to, order).Some?
    ensures var out := Apply(current, PackDelta(current.files, to, order).value, walk);
            out.Some? ==> out.value.files == to
  {
    var changed := Changed(current.files, to, order);
    ChangedIsTarget(current.files, to, order);
    ApplyOfPacked(current, current.files, to, order, walk);
    hide Apply, PackDelta, Overlay, Changed, IsTidy, IsGoodName, Pack;
    OverlayPacked(current, to, changed, Budget(MAX_TOTAL, 0));
    FilesAreTheTarget(current.files, to, order);
    var over := Overlay(current, Pack(to, changed), Budget(MAX_TOTAL, 0));
    if over.Some? {
      RemoveEmptyKeepsFiles(over.value.(files := Keep(over.value.files, order)), walk(over.value));
    }
  }

  /** Pruning an overlaid tree to the target's names leaves the directories on the way to a file of the target. */
  lemma PrunedDirs(o: Tree, to: Files, order: seq<Bytes>, walk: seq<Bytes>, d: Bytes)
    requires IsTidy(o) && IsDirWalk(walk, o.dirs) && Keep(o.files, order) == to
    ensures d in DropMissing(o, order, walk).dirs <==> HasFileBelow(to, d)
  {
    assert ParentsFirst(walk) && forall x :: x in o.dirs ==> x in walk;
    assert forall p :: p in to ==> p in o.files;
    KeptFilesHaveDirs(o, to, d);
    hide IsTidy, IsDirWalk, HasFileBelow, ParentsFirst, Keep, RemoveEmpty;
    RemoveEmptyKeepsAncestors(o.(files := to), walk);
  }

  /** And the directories left are exactly those on the way to a file of the target. */
  lemma DeltaLeavesNoEmptyDirs(current: Tree, to: Files, order: seq<Bytes>, walk: Tree -> seq<Bytes>, d: Bytes)
    requires Lists(order, to) && AllGood(order) && IsTidy(current)
    requires PackDelta(current.files, to, order).Some?
    requires forall t :: IsDirWalk(walk(t), t.dirs)
    ensures var out := Apply(current, PackDelta(current.files, to, order).value, walk);
            out.Some? ==> (d in out.value.dirs <==> HasFileBelow(to, d))
  {
    ChangedIsTarget(current.files, to, order);
    ApplyOfPacked(current, current.files, to, order, walk);
    hide Apply, PackDelta, Overlay, Changed, IsTidy, IsGoodName, Pack, IsDirWalk, HasFileBelow, DropMissing, Lists,
         ReadListing, ListingMember, Keep, Restricted;
    var changed := Changed(current.files, to, order);
    OverlayPacked(current, to, changed, Budget(MAX_TOTAL, 0));
    FilesAreTheTarget(current.files, to, order);
    var over := Overlay(current, Pack(to, changed), Budget(MAX_TOTAL, 0));
    if over.Some? {
      PrunedDirs(over.value, to, order, walk(over.value), d);
    }
  }

  lemma KeptFilesHaveDirs(o: Tree, to: Files, d: Bytes)
    requires IsTidy(o) && forall p :: p in to ==> p in o.files
    ensures HasFileBelow(to, d) ==> d in o.dirs
  {
  }

  // ---------------------------------------------------------------- when a delta applies

  function Total(to: Files, paths: seq<Bytes>): nat
    requires forall p :: p in paths ==> p in to
  {
    if paths == [] then 0 else |to[paths[0]]| + Total(to, paths[1..])
  }

  /** A path where no directory is, below no file. */
  ghost predicate IsFree(t: Tree, p: Bytes) { p !in t.dirs && forall d :: IsAbove(d, p) ==> d !in t.files }

  ghost predicate AllFree(t: Tree, paths: seq<Bytes>) { forall p :: p in paths ==> IsFree(t, p) }

  /** No file of the target lies below another. */
  ghost predicate IsTreeLike(to: Files) { forall p, q :: p in to && q in to ==> !IsAbove(p, q) }

  lemma ParentIsAbove(p: Bytes)
    requires Parent(p) != []
    ensures IsAbove(Parent(p), p)
  {
  }

  /** The parent's directories can be made exactly when no file is in the way. */
  lemma MkdirParent(t: Tree, p: Bytes)
    ensures MkdirAll(t, Parent(p)).Some? <==> forall d :: IsAbove(d, p) ==> d !in t.files
    ensures MkdirAll(t, Parent(p)).Some? ==>
              forall d :: d in MkdirAll(t, Parent(p)).value.dirs ==> d in t.dirs || IsAbove(d, p)
  {
    var q := Parent(p);
    forall d | IsAbove(d, p) ensures d == q || IsAbove(d, q) { AboveParent(d, p); }
    if q != [] {
      ParentIsAbove(p);
      forall d | IsAbove(d, q) ensures IsAbove(d, p) { AboveIsTransitive(d, q, p); }
    } else {
      forall d ensures !IsAbove(d, q) {}
    }
    hide IsAbove, Parent;
  }

  /** One clean member goes out exactly when it fits the budget and its path is free. */
  lemma UnzipApplies(t: Tree, m: Member, b: Budget)
    requires IsCleanPath(m.name) && m.header == |m.content|
    ensures Unzip(t, m, b).Some? <==> b.files < MAX_FILES && m.header <= b.remaining && IsFree(t, m.name)
    ensures Unzip(t, m, b).Some? ==>
              && Unzip(t, m, b).value.1 == Budget(b.remaining - |m.content|, b.files + 1)
              && (forall d :: d in Unzip(t, m, b).value.0.dirs ==> d in t.dirs || IsAbove(d, m.name))
              && t.dirs <= Unzip(t, m, b).value.0.dirs
              && Unzip(t, m, b).value.0.files == t.files[m.name := m.content]
  {
    CleanPathKeepsClean(m.name);
    MkdirParent(t, m.name);
    assert !IsAbove(m.name, m.name);
    if MkdirAll(t, Parent(m.name)).Some? {
      MkdirGrows(t, Parent(m.name));
    }
    hide CleanPath, MkdirAll, Parent, IsCleanPath, IsAbove, IsAbs, Escapes;
  }

  lemma MkdirGrows(t: Tree, p: Bytes)
    requires MkdirAll(t, p).Some?
    ensures MkdirAll(t, p).value.files == t.files && t.dirs <= MkdirAll(t, p).value.dirs
  {
  }

  /** Writing one target file leaves the others as free as they were. */
  lemma StillFree(t: Tree, o: Tree, to: Files, p: Bytes, paths: seq<Bytes>)
    requires IsTreeLike(to) && p in to && forall q :: q in paths ==> q in to
    requires o.files == t.files[p := to[p]] && t.dirs <= o.dirs
    requires forall d :: d in o.dirs ==> d in t.dirs || IsAbove(d, p)
    ensures AllFree(o, paths) <==> AllFree(t, paths)
  {
    hide IsAbove;
    forall q | q in paths ensures IsFree(o, q) <==> IsFree(t, q) {
      assert !IsAbove(q, p) && !IsAbove(p, q);
      if IsFree(t, q) {
        forall d | IsAbove(d, q) ensures d !in o.files {}
      }
      if IsFree(o, q) {
        forall d | IsAbove(d, q) ensures d !in t.files {}
      }
    }
    hide IsFree;
  }

  lemma {:induction false} OverlayApplies(t: Tree, to: Files, paths: seq<Bytes>, b: Budget)
    requires IsTidy(t) && IsTreeLike(to) && AllGood(paths) && forall p :: p in paths ==> p in to
    ensures Overlay(t, Pack(to, paths), b).Some? <==>
              (paths != [] ==> b.files + |paths| <= MAX_FILES && Total(to, paths) <= b.remaining && AllFree(t, paths))
    decreases |paths|
  {
    if paths != [] {
      var p := paths[0];
      assert p in paths && IsGoodName(p) && paths == [p] + paths[1..];
      var m := Pack(to, paths)[0];
      UnzipApplies(t, m, b);
      OverlayStep(t, to, paths, b);
      hide Unzip, IsTidy, IsGoodName, IsTreeLike, Overlay, IsCleanPath, Pack, IsAbove, IsFree;
      var one := Unzip(t, m, b);
      if one.Some? {
        StillFree(t, one.value.0, to, p, paths[1..]);
        OverlayApplies(one.value.0, to, paths[1..], one.value.1);
      }
      FreeSplits(t, paths);
    }
  }

  lemma FreeSplits(t: Tree, paths: seq<Bytes>)
    requires paths != []
    ensures AllFree(t, paths) <==> IsFree(t, paths[0]) && AllFree(t, paths[1..])
  {
    hide IsFree;
    assert paths == [paths[0]] + paths[1..];
  }

  /**
   * A packed delta applies to its base exactly when the listing and the changed files fit the limits
   * and no changed path runs into a base directory or lies below a base file.
   */
  lemma DeltaApplies(current: Tree, to: Files, order: seq<Bytes>, walk: Tree -> seq<Bytes>)
    requires Lists(order, to) && AllGood(order) && IsTidy(current) && IsTreeLike(to)
    requires PackDelta(current.files, to, order).Some?
    ensures var changed := Changed(current.files, to, order);
            Apply(current, PackDelta(current.files, to, order).value, walk).Some? <==>
              && |Join(order, ['\n'])| <= MAX_LISTING && |order| <= MAX_FILES
              && |changed| <= MAX_FILES && Total(to, changed) <= MAX_TOTAL && AllFree(current, changed)
  {
    var changed := Changed(current.files, to, order);
    ChangedIsTarget(current.files, to, order);
    PackIsSome(current.files, to, order);
    ApplyOfPacked(current, current.files, to, order, walk);
    ListingRoundTrip(order);
    hide Apply, PackDelta, Overlay, Changed, IsTidy, IsGoodName, Pack, Total, AllFree, IsTreeLike, ReadListing, Join,
         ListingMember, DropMissing;
    OverlayApplies(current, to, changed, Budget(MAX_TOTAL, 0));
  }

  /** Nothing to pack exactly when every file of the target is already there: deletions alone make no delta. */
  lemma DeltaNeedsAChange(from: Files, to: Files, order: seq<Bytes>)
    requires Lists(order, to)
    ensures PackDelta(from, to, order).None? <==> forall p :: p in to ==> p in from && from[p] == to[p]
  {
    ChangedIsTarget(from, to, order);
    var changed := Changed(from, to, order);
    hide Changed;
    if changed != [] {
      assert changed[0] in changed;
    }
  }

  // ---------------------------------------------------------------- the applier's loops

  /** readDeltaListing as its loop over the lines. */
  method ReadListingLines(lines: seq<Bytes>) returns (paths: Option<seq<Bytes>>)
    ensures var all := ListingPaths(lines);
            paths == if all.Some? && |all.value| > MAX_FILES then None else all
  {
    hide CleanPath, TrimSpace, IsAbs, Escapes;
    var out: seq<Bytes> := [];
    assert lines[0..] == lines;
    assert AfterPaths(out, ListingPaths(lines)) == ListingPaths(lines) by {
      var all := ListingPaths(lines);
      assert all.Some? ==> out + all.value == all.value;
    }
    for i := 0 to |lines|
      invariant |out| <= MAX_FILES
      invariant ListingPaths(lines) == AfterPaths(out, ListingPaths(lines[i..]))
    {
      var line := TrimSpace(lines[i]);
      var clean := CleanPath(line);
      ghost var rest := ListingPaths(lines[i + 1..]);
      ListingStep(lines, i, out);
      if line != [] {
        if IsAbs(clean) || Escapes(clean) {
          return None;
        }
        out := out + [clean];
        if |out| > MAX_FILES {
          return None;
        }
      }
    }
    assert lines[|lines|..] == [] && out + [] == out;
    return Some(out);
  }

  function AfterPaths(out: seq<Bytes>, rest: Option<seq<Bytes>>): Option<seq<Bytes>> {
    if rest.None? then None else Some(out + rest.value)
  }

  lemma ListingStep(lines: seq<Bytes>, i: nat, out: seq<Bytes>)
    requires i < |lines|
    ensures var line := TrimSpace(lines[i]);
            var clean := CleanPath(line);
            var here := ListingPaths(lines[i..]);
            var rest := ListingPaths(lines[i + 1..]);
            && (line == [] ==> here == rest)
            && (line != [] && (IsAbs(clean) || Escapes(clean)) ==> here == None)
            && (line != [] && !(IsAbs(clean) || Escapes(clean)) ==>
                  if rest.None? then here == None
                  else here.Some? && out + here.value == out + [clean] + rest.value)
  {
    hide CleanPath, TrimSpace, IsAbs, Escapes;
    assert lines[i..][0] == lines[i] && lines[i..][1..] == lines[i + 1..];
    var clean := CleanPath(TrimSpace(lines[i]));
    var rest := ListingPaths(lines[i + 1..]);
    if rest.Some? {
      assert out + ([clean] + rest.value) == out + [clean] + rest.value;
    }
  }

  /** The output directory of an apply and what is left of its budget. */
  class OutTree {
    var files: Files
    var dirs: set<Bytes>
    var remaining: nat
    var members: nat

    function View(): Tree
      reads this
    {
      Tree(files, dirs)
    }

    function Left(): Budget
      reads this
    {
      Budget(remaining, members)
    }

    constructor (current: Tree)
      ensures View() == current && Left() == Budget(MAX_TOTAL, 0)
    {
      files, dirs := current.files, current.dirs;
      remaining, members := MAX_TOTAL, 0;
    }

    method MakeAll(p: Bytes) returns (ok: bool)
      modifies `dirs
      ensures var made := MkdirAll(old(View()), p);
              if made.None? then !ok && View() == old(View()) else ok && View() == made.value
    {
      var made := MkdirAll(View(), p);
      if made.None? {
        return false;
      }
      dirs := made.value.dirs;
      return true;
    }

    /** unzipOneBudgeted. A refusal may leave the tree half changed: the caller gives it up. */
    method UnzipOne(m: Member) returns (ok: bool)
      modifies this
      ensures var o := Unzip(old(View()), m, old(Left()));
              ok == o.Some? && (ok ==> View() == o.value.0 && Left() == o.value.1)
    {
      hide CleanPath, MkdirAll, Parent, Escapes, IsAbs;
      var rel := CleanPath(m.name);
      if IsAbs(m.name) || rel == "." || Escapes(rel) {
        return false;
      }
      members := members + 1;
      if members > MAX_FILES {
        return false;
      }
      if m.name != [] && m.name[|m.name| - 1] == '/' {
        ok := MakeAll(rel);
        return;
      }
      if m.header > remaining {
        return false;
      }
      ok := MakeAll(Parent(rel));
      if !ok || rel in dirs {
        return false;
      }
      files := files[rel := m.content];
      if |m.content| > remaining {
        files := files - {rel};
        return false;
      }
      remaining := remaining - |m.content|;
    }

    /** The file pass of dropMissing. */
    method DropFiles(listing: seq<Bytes>)
      modifies `files
      ensures files == Keep(old(files), listing)
    {
      var todo := files.Keys;
      while todo != {}
        invariant todo <= files.Keys
        invariant files == map p | p in old(files) && (p in todo || p in listing) :: old(files)[p]
        decreases |todo|
      {
        var p :| p in todo;
        if p !in listing {
          files := files - {p};
        }
        todo := todo - {p};
      }
    }

    /** The directory pass of dropMissing, last directory first. */
    method DropEmptyDirs(walk: seq<Bytes>)
      modifies `dirs
      ensures View() == RemoveEmpty(old(View()), walk)
    {
      hide HasBelow;
      assert walk[..|walk|] == walk;
      for i := |walk| downto 0
        invariant RemoveEmpty(View(), walk[..i]) == RemoveEmpty(old(View()), walk)
      {
        assert walk[..i + 1][..i] == walk[..i] && walk[..i + 1][i] == walk[i];
        if !HasBelow(View(), walk[i]) {
          dirs := dirs - {walk[i]};
        }
      }
    }

    /** Drop the files the listing does not name, then the directories that empties. */
    method Prune(listing: seq<Bytes>, walk: seq<Bytes>)
      modifies `files, `dirs
      ensures View() == DropMissing(old(View()), listing, walk)
    {
      hide RemoveEmpty, Keep;
      DropFiles(listing);
      DropEmptyDirs(walk);
    }

    /** ZipOverlayApplier.Apply on a fresh copy of the current tree. */
    method ApplyDelta(ms: seq<Member>, walk: Tree -> seq<Bytes>) returns (ok: bool)
      requires Left() == Budget(MAX_TOTAL, 0)
      modifies this
      ensures var out := Apply(old(View()), ms, walk);
              ok == out.Some? && (ok ==> View() == out.value)
    {
      hide ListingPaths, Unzip, DropMissing, MkdirAll;
      var listing: seq<Bytes> := [];
      var found := FindListing(ms);
      if found.Some? {
        if found.value.header > MAX_LISTING || |found.value.content| > MAX_LISTING {
          return false;
        }
        var read := ReadListingLines(Split(found.value.content, '\n'));
        if read.None? {
          return false;
        }
        listing := read.value;
      }
      ok := Extract(ms);
      if ok && listing != [] {
        Prune(listing, walk(View()));
      }
    }

    /** The overlay loop. */
    method Extract(ms: seq<Member>) returns (ok: bool)
      modifies this
      ensures var out := Overlay(old(View()), ms, old(Left()));
              ok == out.Some? && (ok ==> View() == out.value)
    {
      hide Unzip;
      for i := 0 to |ms|
        invariant Overlay(View(), ms[i..], Left()) == Overlay(old(View()), ms, old(Left()))
      {
        assert ms[i..][0] == ms[i] && ms[i..][1..] == ms[i + 1..];
        if ms[i].name != LISTING_NAME {
          var one := UnzipOne(ms[i]);
          if !one {
            return false;
          }
        }
      }
      assert ms[|ms|..] == [];
      return true;
    }
  }
}
