/** Seeding the guest's home: the entries Stage accepts and where Install puts
    them (agentconfig/stage.go, agentconfig/install.go). */
module HomeSeeds {
  import opened Wrappers
  import opened Strings
  import opened Paths

  datatype HomeEntry = HomeEntry(src: string, dest: string)

  datatype StagedHome = StagedHome(hostSrc: string, relDest: string)

  datatype StageError = MissingDest | BadDest(rel: string) | BaseMismatch(src: string, dest: string)

  function ResolvePath(base: string, p: string): string {
    var t := TrimSpace(p);
    if t == "" then t
    else if IsAbs(t) then Clean(t)
    else Clean(PathJoin(base, t))
  }

  /** strings.Contains(s, ".."). */
  predicate HasDotDot(s: string) {
    exists i | 0 <= i < |s| - 1 :: s[i] == '.' && s[i + 1] == '.'
  }

  // ----- staging -----

  /** The checks on one entry; isDir is os.Stat's answer on the host. */
  function CheckEntry(manBase: string, h: HomeEntry, isDir: string -> bool): Result<StagedHome, StageError> {
    var src := ResolvePath(manBase, h.src);
    var rel := TrimSpace(h.dest);
    if rel == "" then Err(MissingDest)
    else if IsAbs(rel) || HasDotDot(rel) then Err(BadDest(rel))
    else if isDir(src) && Base(src) != Base(rel) then Err(BaseMismatch(Base(src), Base(rel)))
    else Ok(StagedHome(src, rel))
  }

  ghost predicate AroundDots(s: string, a: string, b: string) {
    s == a + ".." + b
  }

  lemma DotDotMeaning(s: string)
    ensures HasDotDot(s) <==> exists a, b :: AroundDots(s, a, b)
  {
    if HasDotDot(s) {
      var i :| 0 <= i < |s| - 1 && s[i] == '.' && s[i + 1] == '.';
      assert AroundDots(s, s[..i], s[i + 2..]);
    }
    forall a, b | AroundDots(s, a, b) ensures HasDotDot(s) {
      assert s[|a|] == '.' && s[|a| + 1] == '.';
    }
  }

  /** An entry is staged exactly when its destination is given, relative and
      without two dots, and a directory keeps its base name; the first of these
      that fails is the error. The destination is staged as given but for white
      space, the source as the manifest's directory resolves it. */
  lemma CheckMeaning(manBase: string, h: HomeEntry, isDir: string -> bool)
    ensures var src, rel := ResolvePath(manBase, h.src), TrimSpace(h.dest);
            CheckEntry(manBase, h, isDir) ==
            if AllSpace(h.dest) then Err(MissingDest)
            else if "/" <= rel || HasDotDot(rel) then Err(BadDest(rel))
            else if isDir(src) && Base(src) != Base(rel) then Err(BaseMismatch(Base(src), Base(rel)))
            else Ok(StagedHome(src, rel))
  {
    BlankIff(h.dest);
  }

  /** The source: an absolute one is taken as it is, a relative one is looked for
      below the manifest's directory, and a blank one stays blank. */
  lemma SourceMeaning(base: seq<string>, p: string, cs: seq<string>)
    requires AllProper(base) && AllProper(cs)
    ensures AllSpace(p) ==> ResolvePath(AbsPath(base), p) == ""
    ensures TrimSpace(p) == AbsPath(cs) ==> ResolvePath(AbsPath(base), p) == AbsPath(cs)
    ensures !AllSpace(p) && !IsAbs(TrimSpace(p)) && !HasDotDot(p) ==>
              ResolvePath(AbsPath(base), p) == AbsPath(base + Counting(Split(TrimSpace(p), '/')))
  {
    BlankIff(p);
    CleanAbs(cs);
    if !AllSpace(p) && !IsAbs(TrimSpace(p)) && !HasDotDot(p) {
      var a, b := TrimParts(p);
      var t := TrimSpace(p);
      CutHasNoDotDot(p, |a|, |a| + |t|);
      assert p[|a|..|a| + |t|] == t;
      NoDotDotParts(t);
      JoinAppends(base, t);
      CleanBelow(base, Counting(Split(t, '/')));
    }
  }

  lemma CleanBelow(base: seq<string>, added: seq<string>)
    requires AllProper(base) && AllProper(added)
    ensures Clean(AbsPath(base + added)) == AbsPath(base + added)
  {
    CleanAbs(base + added);
  }

  type Check = HomeEntry -> Result<StagedHome, StageError>

  function Checker(manBase: string, isDir: string -> bool): Check {
    h => CheckEntry(manBase, h, isDir)
  }

  /** All entries in order, or the first error. */
  function StageAll(check: Check, entries: seq<HomeEntry>): Result<seq<StagedHome>, StageError> {
    if entries == [] then Ok([])
    else
      match StageAll(check, entries[..|entries| - 1])
      case Err(e) => Err(e)
      case Ok(seeds) =>
        match check(entries[|entries| - 1])
        case Err(e) => Err(e)
        case Ok(seed) => Ok(seeds + [seed])
  }

  lemma {:induction false} ErrorStays(check: Check, entries: seq<HomeEntry>, n: nat)
    requires n <= |entries| && StageAll(check, entries[..n]).Err?
    ensures StageAll(check, entries) == StageAll(check, entries[..n])
    decreases |entries| - n
  {
    if n == |entries| {
      assert entries[..n] == entries;
    } else {
      assert entries[..n + 1][..n] == entries[..n];
      ErrorStays(check, entries, n + 1);
    }
  }

  /** Staging succeeds exactly when every entry passes its checks, and then
      keeps them all in order. */
  lemma {:induction false} StageAllMeaning(check: Check, entries: seq<HomeEntry>)
    ensures var r := StageAll(check, entries);
            && (r.Ok? <==> forall i | 0 <= i < |entries| :: check(entries[i]).Ok?)
            && (r.Ok? ==> && |r.value| == |entries|
                          && forall i | 0 <= i < |entries| :: check(entries[i]) == Ok(r.value[i]))
            && (r.Err? ==> exists i :: 0 <= i < |entries| && check(entries[i]) == Err(r.error)
                                       && forall j | 0 <= j < i :: check(entries[j]).Ok?)
  {
    if entries != [] {
      var init := entries[..|entries| - 1];
      StageAllMeaning(check, init);
      assert forall i | 0 <= i < |init| :: init[i] == entries[i];
      if StageAll(check, init).Err? {
        var i :| 0 <= i < |init| && check(init[i]) == Err(StageAll(check, init).error)
                 && forall j | 0 <= j < i :: check(init[j]).Ok?;
        assert check(entries[i]) == Err(StageAll(check, entries).error);
      } else if StageAll(check, entries).Err? {
        assert check(entries[|init|]) == Err(StageAll(check, entries).error);
      }
    }
  }

  /** What an entry may ask for: a destination that is given, relative and free
      of two dots in a row, under which a directory keeps its base name. */
  ghost predicate Acceptable(manBase: string, h: HomeEntry, isDir: string -> bool) {
    var src, rel := ResolvePath(manBase, h.src), TrimSpace(h.dest);
    && !AllSpace(h.dest) && !IsAbs(rel)
    && (forall a, b :: !AroundDots(rel, a, b))
    && (isDir(src) ==> Base(src) == Base(rel))
  }

  /** Staging succeeds exactly when every entry may be, and stages each with its
      trimmed destination and its source as the manifest's directory resolves it. */
  lemma StagingMeaning(manBase: string, entries: seq<HomeEntry>, isDir: string -> bool)
    ensures var r := StageAll(Checker(manBase, isDir), entries);
            && (r.Ok? <==> forall i | 0 <= i < |entries| :: Acceptable(manBase, entries[i], isDir))
            && (r.Ok? ==> |r.value| == |entries|)
            && (r.Ok? ==> forall i | 0 <= i < |entries| ::
                  && r.value[i].hostSrc == ResolvePath(manBase, entries[i].src)
                  && r.value[i].relDest == TrimSpace(entries[i].dest))
  {
    StageAllMeaning(Checker(manBase, isDir), entries);
    forall i | 0 <= i < |entries|
      ensures CheckEntry(manBase, entries[i], isDir).Ok? <==> Acceptable(manBase, entries[i], isDir)
    {
      CheckMeaning(manBase, entries[i], isDir);
      DotDotMeaning(TrimSpace(entries[i].dest));
    }
  }

  /** The home loop of Stage. */
  method StageHome(manBase: string, entries: seq<HomeEntry>, isDir: string -> bool)
    returns (r: Result<seq<StagedHome>, StageError>)
    ensures r == StageAll(Checker(manBase, isDir), entries)
  {
    var check := Checker(manBase, isDir);
    var seeds: seq<StagedHome> := [];
    for n := 0 to |entries|
      invariant StageAll(check, entries[..n]) == Ok(seeds)
    {
      assert entries[..n + 1][..n] == entries[..n];
      var seed := check(entries[n]);
      if seed.Err? {
        ErrorStays(check, entries, n + 1);
        return Err(seed.error);
      }
      seeds := seeds + [seed.value];
    }
    assert entries[..|entries|] == entries;
    return Ok(seeds);
  }

  // ----- installing -----

  datatype Effect = Mkdir(path: string) | CopyTo(src: string, dest: string)

  /** What the loop of Install does for one seed. */
  function SeedEffects(home: string, seed: StagedHome, isDir: string -> bool): seq<Effect> {
    var dest := PathJoin(home, seed.relDest);
    var parent := Dir(dest);
    [Mkdir(parent), CopyTo(seed.hostSrc, if isDir(seed.hostSrc) then parent else dest)]
  }

  function Plan(home: string, seeds: seq<StagedHome>, isDir: string -> bool): seq<Effect> {
    if seeds == [] then []
    else Plan(home, seeds[..|seeds| - 1], isDir) + SeedEffects(home, seeds[|seeds| - 1], isDir)
  }

  /** The effects carried out, and the refused one that stopped them, if any.
      works(i) says whether the guest accepts the i-th effect asked of it; the
      plan's first effect is number start. */
  ghost predicate CarriedOut(plan: seq<Effect>, works: nat -> bool, start: nat,
                             done: seq<Effect>, refused: Option<Effect>)
  {
    && done <= plan && (forall i | start <= i < start + |done| :: works(i))
    && (refused == None ==> done == plan)
    && (refused.Some? ==> |done| < |plan| && !works(start + |done|) && refused.value == plan[|done|])
  }

  method InstallSeed(home: string, seed: StagedHome, isDir: string -> bool, works: nat -> bool, start: nat)
    returns (done: seq<Effect>, refused: Option<Effect>)
    ensures CarriedOut(SeedEffects(home, seed, isDir), works, start, done, refused)
  {
    var dest := PathJoin(home, seed.relDest);
    var parent := Dir(dest);
    if !works(start) {
      return [], Some(Mkdir(parent));
    }
    var copyDest := dest;
    if isDir(seed.hostSrc) {
      copyDest := parent;
    }
    var copy := CopyTo(seed.hostSrc, copyDest);
    if !works(start + 1) {
      return [Mkdir(parent)], Some(copy);
    }
    return [Mkdir(parent), copy], None;
  }

  /** Runs the effects in order and stops at the first that the guest refuses. */
  method InstallHome(home: string, seeds: seq<StagedHome>, isDir: string -> bool, works: nat -> bool)
    returns (done: seq<Effect>, refused: Option<Effect>)
    ensures CarriedOut(Plan(home, seeds, isDir), works, 0, done, refused)
  {
    done := [];
    for n := 0 to |seeds|
      invariant CarriedOut(Plan(home, seeds[..n], isDir), works, 0, done, None)
    {
      var more;
      more, refused := InstallSeed(home, seeds[n], isDir, works, |done|);
      PlanStep(home, seeds, n, isDir);
      StepCarriedOut(Plan(home, seeds[..n], isDir), SeedEffects(home, seeds[n], isDir),
                     Plan(home, seeds, isDir), works, more, refused);
      done := done + more;
      if refused.Some? {
        return;
      }
    }
    assert seeds[..|seeds|] == seeds;
    refused := None;
  }

  lemma StepCarriedOut(before: seq<Effect>, step: seq<Effect>, plan: seq<Effect>, works: nat -> bool,
                       more: seq<Effect>, refused: Option<Effect>)
    requires CarriedOut(before, works, 0, before, None) && CarriedOut(step, works, |before|, more, refused)
    requires before + step <= plan
    ensures refused == None ==> CarriedOut(before + step, works, 0, before + more, None)
    ensures refused.Some? ==> CarriedOut(plan, works, 0, before + more, refused)
  {
    if refused.Some? {
      assert (before + step)[|before| + |more|] == step[|more|];
    }
  }

  lemma {:induction false} PlanPrefix(home: string, seeds: seq<StagedHome>, n: nat, isDir: string -> bool)
    requires n <= |seeds|
    ensures Plan(home, seeds[..n], isDir) <= Plan(home, seeds, isDir)
    decreases |seeds| - n
  {
    if n == |seeds| {
      assert seeds[..n] == seeds;
    } else {
      assert seeds[..n + 1][..n] == seeds[..n];
      PlanPrefix(home, seeds, n + 1, isDir);
    }
  }

  lemma {:induction false} PlanLength(home: string, seeds: seq<StagedHome>, isDir: string -> bool)
    ensures |Plan(home, seeds, isDir)| == 2 * |seeds|
  {
    if seeds != [] {
      PlanLength(home, seeds[..|seeds| - 1], isDir);
    }
  }

  lemma PlanStep(home: string, seeds: seq<StagedHome>, n: nat, isDir: string -> bool)
    requires n < |seeds|
    ensures Plan(home, seeds[..n], isDir) + SeedEffects(home, seeds[n], isDir) == Plan(home, seeds[..n + 1], isDir)
    ensures Plan(home, seeds[..n + 1], isDir) <= Plan(home, seeds, isDir)
  {
    assert seeds[..n + 1][..n] == seeds[..n];
    PlanPrefix(home, seeds, n + 1, isDir);
  }

  /** The plan has the two effects of each seed, seed after seed. */
  lemma PlanAt(home: string, seeds: seq<StagedHome>, isDir: string -> bool, i: nat)
    requires i < |seeds|
    ensures |Plan(home, seeds, isDir)| == 2 * |seeds|
    ensures Plan(home, seeds, isDir)[2 * i..2 * i + 2] == SeedEffects(home, seeds[i], isDir)
  {
    PlanLength(home, seeds, isDir);
    PlanLength(home, seeds[..i], isDir);
    PlanStep(home, seeds, i, isDir);
    SliceOf(Plan(home, seeds[..i], isDir), SeedEffects(home, seeds[i], isDir), Plan(home, seeds, isDir));
  }

  lemma SliceOf(a: seq<Effect>, b: seq<Effect>, c: seq<Effect>)
    requires a + b <= c
    ensures c[|a|..|a| + |b|] == b
  {
    assert (a + b)[|a|..] == b;
  }

  // ----- where things land -----

  /** Copying a directory to a place puts it there under its own base name. */
  function Landing(e: Effect, isDir: string -> bool): string
    requires e.CopyTo?
  {
    if isDir(e.src) then PathJoin(e.dest, Base(e.src)) else e.dest
  }

  lemma NoDotDotParts(rel: string)
    requires !HasDotDot(rel)
    ensures NoDotDot(Split(rel, '/'))
  {
    NoDotDotInParts(rel, Split(rel, '/'));
  }

  lemma CutHasNoDotDot(s: string, i: nat, j: nat)
    requires !HasDotDot(s) && i <= j <= |s|
    ensures !HasDotDot(s[i..j]) && s[i..j] != ".."
  {
    var t := s[i..j];
    assert forall k | 0 <= k < |t| :: t[k] == s[i + k];
    assert |t| == 2 ==> s[i] == t[0] && s[i + 1] == t[1];
  }

  lemma {:induction false} NoDotDotInParts(rel: string, parts: seq<string>)
    requires !HasDotDot(rel) && parts == Split(rel, '/')
    ensures NoDotDot(parts)
    decreases |rel|
  {
    var i := IndexOf(rel, '/');
    CutHasNoDotDot(rel, 0, i);
    if i == |rel| {
      assert rel[0..i] == rel;
    } else {
      CutHasNoDotDot(rel, i + 1, |rel|);
      var tail := Split(rel[i + 1..], '/');
      assert rel[i + 1..|rel|] == rel[i + 1..] && rel[0..i] == rel[..i];
      NoDotDotInParts(rel[i + 1..], tail);
      assert parts == [rel[..i]] + tail;
    }
  }

  /** The components an accepted destination adds below the home. */
  function Added(rel: string): seq<string> {
    Counting(Split(rel, '/'))
  }

  /** Every accepted entry, under every clean absolute home: the destination is
      the home with components added, none of the home's taken away. */
  lemma DestUnderHome(home: seq<string>, manBase: string, h: HomeEntry, isDir: string -> bool)
    requires AllProper(home) && CheckEntry(manBase, h, isDir).Ok?
    ensures var rel := CheckEntry(manBase, h, isDir).value.relDest;
            && AllProper(Added(rel))
            && PathJoin(AbsPath(home), rel) == AbsPath(home + Added(rel))
  {
    var rel := TrimSpace(h.dest);
    NoDotDotParts(rel);
    JoinAppends(home, rel);
  }

  lemma JoinName(cs: seq<string>, name: string)
    requires AllProper(cs) && (Proper(name) || name == ".")
    ensures PathJoin(AbsPath(cs), name) == AbsPath(if name == "." then cs else cs + [name])
  {
    assert '/' !in name;
    IndexOfUnique(name, '/', |name|);
    assert Split(name, '/') == [name];
    JoinAppends(cs, name);
    assert Counting([name]) == if name == "." then [] else [name];
    assert cs + [] == cs;
  }

  /** Putting a name back into the directory of a path: the path again when it
      is the path's last component, the directory itself when it is a dot. */
  lemma BackIntoDir(cs: seq<string>, name: string)
    requires AllProper(cs) && (name == "." || (cs != [] && name == cs[|cs| - 1]))
    ensures PathJoin(Dir(AbsPath(cs)), name) == AbsPath(if name == "." && cs != [] then cs[..|cs| - 1] else cs)
  {
    DirDropsLast(cs);
    if cs == [] {
      JoinName(cs, name);
    } else {
      var init, last := cs[..|cs| - 1], cs[|cs| - 1];
      assert AllProper(init) && Proper(last) && init + [last] == cs;
      JoinName(init, name);
    }
  }

  /** The base of an accepted directory source is a dot or the last component
      that its destination adds. */
  lemma DirectoryBase(manBase: string, h: HomeEntry, isDir: string -> bool)
    requires CheckEntry(manBase, h, isDir).Ok? && isDir(CheckEntry(manBase, h, isDir).value.hostSrc)
    ensures var seed := CheckEntry(manBase, h, isDir).value;
            var added := Added(seed.relDest);
            Base(seed.hostSrc) == "." || (added != [] && Base(seed.hostSrc) == added[|added| - 1])
  {
    var rel := TrimSpace(h.dest);
    NoDotDotParts(rel);
    BaseIsLastCounting(rel);
  }

  /** A directory that is copied under the base name "." */
  predicate CopiesDot(seed: StagedHome, isDir: string -> bool) {
    isDir(seed.hostSrc) && Base(seed.hostSrc) == "."
  }

  /** Where each copy lands: on its destination, or for a directory called by a
      dot one level above it. */
  lemma LandingPlace(home: seq<string>, manBase: string, h: HomeEntry, isDir: string -> bool)
    requires AllProper(home) && CheckEntry(manBase, h, isDir).Ok?
    ensures var seed := CheckEntry(manBase, h, isDir).value;
            var dest := home + Added(seed.relDest);
            && AllProper(dest)
            && Landing(SeedEffects(AbsPath(home), seed, isDir)[1], isDir) ==
               AbsPath(if CopiesDot(seed, isDir) && dest != [] then dest[..|dest| - 1] else dest)
  {
    var seed := CheckEntry(manBase, h, isDir).value;
    DestUnderHome(home, manBase, h, isDir);
    if isDir(seed.hostSrc) {
      DirectoryBase(manBase, h, isDir);
      BackIntoDir(home + Added(seed.relDest), Base(seed.hostSrc));
    }
  }

  /** What is done for an accepted entry: the directory above its destination is
      made, then the staged source is copied, a file to the destination, a
      directory to the one just made. */
  lemma EffectsMeaning(home: seq<string>, manBase: string, h: HomeEntry, isDir: string -> bool)
    requires AllProper(home) && CheckEntry(manBase, h, isDir).Ok?
    ensures var seed := CheckEntry(manBase, h, isDir).value;
            var dest := home + Added(seed.relDest);
            var parent := AbsPath(if dest == [] then [] else dest[..|dest| - 1]);
            SeedEffects(AbsPath(home), seed, isDir) ==
            [Mkdir(parent), CopyTo(seed.hostSrc, if isDir(seed.hostSrc) then parent else AbsPath(dest))]
  {
    var dest := home + Added(CheckEntry(manBase, h, isDir).value.relDest);
    DestUnderHome(home, manBase, h, isDir);
    assert AllProper(dest);
    DirDropsLast(dest);
  }

  /** Every copy of an accepted entry lands on its destination, exactly unless a
      directory is copied under the base name "." (and the destination is not
      the root). */
  lemma LandsOnDestIff(home: seq<string>, manBase: string, h: HomeEntry, isDir: string -> bool)
    requires AllProper(home) && CheckEntry(manBase, h, isDir).Ok?
    ensures var seed := CheckEntry(manBase, h, isDir).value;
            var copy := SeedEffects(AbsPath(home), seed, isDir)[1];
            Landing(copy, isDir) == PathJoin(AbsPath(home), seed.relDest)
            <==> !(CopiesDot(seed, isDir) && home + Added(seed.relDest) != [])
  {
    var seed := CheckEntry(manBase, h, isDir).value;
    var dest := home + Added(seed.relDest);
    DestUnderHome(home, manBase, h, isDir);
    LandingPlace(home, manBase, h, isDir);
    if dest != [] && AbsPath(dest[..|dest| - 1]) == AbsPath(dest) {
      AbsPathInjective(dest[..|dest| - 1], dest);
    }
  }

  /** The path lies at or below the home. */
  ghost predicate Within(home: seq<string>, p: string) {
    exists cs: seq<string> :: AllProper(cs) && p == AbsPath(home + cs)
  }

  /** A directory called by a dot whose destination adds nothing to the home. */
  predicate Escapes(home: seq<string>, seed: StagedHome, isDir: string -> bool) {
    home != [] && CopiesDot(seed, isDir) && Added(seed.relDest) == []
  }

  lemma AboveIsOutside(home: seq<string>)
    requires home != [] && AllProper(home)
    ensures !Within(home, AbsPath(home[..|home| - 1]))
  {
    forall cs | AllProper(cs) ensures AbsPath(home[..|home| - 1]) != AbsPath(home + cs) {
      if AbsPath(home[..|home| - 1]) == AbsPath(home + cs) {
        AbsPathInjective(home[..|home| - 1], home + cs);
      }
    }
  }

  lemma BelowIsWithin(home: seq<string>, below: seq<string>)
    requires AllProper(home + below)
    ensures Within(home, AbsPath(home + below))
  {
    assert forall i | 0 <= i < |below| :: below[i] == (home + below)[|home| + i];
  }

  lemma WithinIff(home: seq<string>, added: seq<string>, dot: bool)
    requires AllProper(home) && AllProper(home + added)
    ensures var dest := home + added;
            Within(home, AbsPath(if dot && dest != [] then dest[..|dest| - 1] else dest))
            <==> !(home != [] && dot && added == [])
  {
    BelowIsWithin(home, added);
    if added != [] {
      assert home + added[..|added| - 1] == (home + added)[..|home + added| - 1];
      BelowIsWithin(home, added[..|added| - 1]);
    } else {
      assert home + added == home;
      if home != [] { AboveIsOutside(home); }
    }
  }

  /** The copy of an accepted entry lands inside the home exactly unless it is a
      directory called by a dot whose destination adds nothing: that one lands
      in the home's parent. */
  lemma SeedStaysHomeIff(home: seq<string>, manBase: string, h: HomeEntry, isDir: string -> bool)
    requires AllProper(home) && CheckEntry(manBase, h, isDir).Ok?
    ensures var seed := CheckEntry(manBase, h, isDir).value;
            Within(home, Landing(SeedEffects(AbsPath(home), seed, isDir)[1], isDir)) <==> !Escapes(home, seed, isDir)
  {
    var seed := CheckEntry(manBase, h, isDir).value;
    var added, dot := Added(seed.relDest), CopiesDot(seed, isDir);
    LandingPlace(home, manBase, h, isDir);
    WithinIff(home, added, dot);
    assert Escapes(home, seed, isDir) <==> home != [] && dot && added == [];
  }

  /** Such an entry passes every check: a manifest next to the directory that it
      asks to copy onto the home itself, both written as a dot. */
  lemma DotEntryEscapes(home: seq<string>, isDir: string -> bool)
    requires home != [] && AllProper(home) && isDir(".")
    ensures var r := CheckEntry(".", HomeEntry(".", "."), isDir);
            && r == Ok(StagedHome(".", "."))
            && !Within(home, Landing(SeedEffects(AbsPath(home), r.value, isDir)[1], isDir))
  {
    TrimFixedIff(".");
    IndexOfUnique(".", '/', 1);
    DotJoinsDot();
    assert Split(".", '/') == ["."];
    assert Counting(["."]) == [];
    SeedStaysHomeIff(home, ".", HomeEntry(".", "."), isDir);
  }

  lemma DotJoinsDot()
    ensures Clean(PathJoin(".", ".")) == "." && Base(".") == "."
  {
    var p := "./.";
    assert "." + "/" + "." == p;
    IndexOfUnique(".", '/', 1);
    IndexOfUnique(p, '/', 1);
    assert p[..1] == "." && p[2..] == ".";
    assert Split(p, '/') == [".", "."];
    assert [".", "."][1..] == ["."];
    assert PushAll(false, [], ["."]) == [];
    assert PushAll(false, [], [".", "."]) == [];
    assert Clean(p) == ".";
  }

  lemma {:induction false} PlanMember(home: string, seeds: seq<StagedHome>, isDir: string -> bool, e: Effect)
    requires e in Plan(home, seeds, isDir)
    ensures exists i :: 0 <= i < |seeds| && e in SeedEffects(home, seeds[i], isDir)
  {
    var last := |seeds| - 1;
    if e !in SeedEffects(home, seeds[last], isDir) {
      PlanMember(home, seeds[..last], isDir, e);
      var i :| 0 <= i < last && e in SeedEffects(home, seeds[..last][i], isDir);
      assert seeds[..last][i] == seeds[i];
    }
  }

  lemma CopyIsSecond(home: string, seed: StagedHome, isDir: string -> bool, e: Effect)
    requires e in SeedEffects(home, seed, isDir) && e.CopyTo?
    ensures e == SeedEffects(home, seed, isDir)[1]
  {}

  lemma {:induction false} PlanHas(home: string, seeds: seq<StagedHome>, isDir: string -> bool, i: nat)
    requires i < |seeds|
    ensures SeedEffects(home, seeds[i], isDir)[1] in Plan(home, seeds, isDir)
  {
    if i < |seeds| - 1 {
      PlanHas(home, seeds[..|seeds| - 1], isDir, i);
    }
  }

  /** The copies of the plan are those of its seeds. */
  lemma PlannedCopies(home: string, seeds: seq<StagedHome>, isDir: string -> bool, e: Effect)
    requires e.CopyTo?
    ensures e in Plan(home, seeds, isDir)
            <==> exists i :: 0 <= i < |seeds| && e == SeedEffects(home, seeds[i], isDir)[1]
  {
    if e in Plan(home, seeds, isDir) {
      PlanMember(home, seeds, isDir, e);
      var i :| 0 <= i < |seeds| && e in SeedEffects(home, seeds[i], isDir);
      CopyIsSecond(home, seeds[i], isDir, e);
    }
    if i :| 0 <= i < |seeds| && e == SeedEffects(home, seeds[i], isDir)[1] {
      PlanHas(home, seeds, isDir, i);
    }
  }

  /** Staging and installing together, whatever the entries, the manifest's
      directory and the clean absolute home: when staging succeeds, every copy
      Install makes lands inside the home exactly when no staged seed is a
      directory called by a dot whose destination adds nothing to the home. */
  lemma AcceptedSeedsStayHome(home: seq<string>, manBase: string, entries: seq<HomeEntry>, isDir: string -> bool,
                              seeds: seq<StagedHome>)
    requires AllProper(home) && StageAll(Checker(manBase, isDir), entries) == Ok(seeds)
    ensures (forall e | e in Plan(AbsPath(home), seeds, isDir) && e.CopyTo? :: Within(home, Landing(e, isDir)))
            <==> (forall i | 0 <= i < |seeds| :: !Escapes(home, seeds[i], isDir))
  {
    var h := AbsPath(home);
    StageAllMeaning(Checker(manBase, isDir), entries);
    forall i | 0 <= i < |seeds|
      ensures Within(home, Landing(SeedEffects(h, seeds[i], isDir)[1], isDir)) <==> !Escapes(home, seeds[i], isDir)
      ensures SeedEffects(h, seeds[i], isDir)[1] in Plan(h, seeds, isDir)
    {
      assert CheckEntry(manBase, entries[i], isDir) == Ok(seeds[i]);
      SeedStaysHomeIff(home, manBase, entries[i], isDir);
      PlanHas(h, seeds, isDir, i);
    }
    forall e | e in Plan(h, seeds, isDir) && e.CopyTo?
      ensures exists i :: 0 <= i < |seeds| && e == SeedEffects(h, seeds[i], isDir)[1]
    {
      PlannedCopies(h, seeds, isDir, e);
    }
  }
}
