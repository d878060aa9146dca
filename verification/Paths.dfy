/** Go's lexical path functions on slash-separated paths: Clean, Join, Dir and
    Base, with what they do to the components of absolute paths. */
module Paths {
  import opened Strings

  // ----- the functions -----

  /** One component on top of a cleaned stack of components. */
  function Push(rooted: bool, stack: seq<string>, part: string): seq<string> {
    if part == "" || part == "." then stack
    else if part != ".." then stack + [part]
    else if stack != [] && stack[|stack| - 1] != ".." then stack[..|stack| - 1]
    else if rooted then stack
    else stack + [".."]
  }

  function PushAll(rooted: bool, stack: seq<string>, parts: seq<string>): seq<string>
    decreases |parts|
  {
    if parts == [] then stack else PushAll(rooted, Push(rooted, stack, parts[0]), parts[1..])
  }

  predicate IsAbs(p: string) {
    "/" <= p
  }

  function Clean(p: string): string {
    var stack := PushAll(IsAbs(p), [], Split(p, '/'));
    if IsAbs(p) then "/" + Join(stack, '/') else if stack == [] then "." else Join(stack, '/')
  }

  function PathJoin(a: string, b: string): string {
    if a == "" && b == "" then "" else if a == "" then Clean(b) else Clean(a + "/" + b)
  }

  function LastPart(p: string): string {
    var parts := Split(p, '/');
    parts[|parts| - 1]
  }

  lemma {:induction false} LastPartIsSuffix(p: string)
    ensures |LastPart(p)| <= |p| && p[|p| - |LastPart(p)|..] == LastPart(p)
    decreases |p|
  {
    var i := IndexOf(p, '/');
    if i < |p| {
      var tail := p[i + 1..];
      LastPartIsSuffix(tail);
      assert LastPart(p) == LastPart(tail);
      SuffixOfSuffix(p, i + 1, |LastPart(tail)|);
    }
  }

  lemma SuffixOfSuffix(p: string, from: nat, n: nat)
    requires from + n <= |p|
    ensures p[from..][|p| - from - n..] == p[|p| - n..]
  {}

  /** Everything up to and including the last slash, cleaned. */
  function Dir(p: string): string {
    LastPartIsSuffix(p);
    Clean(p[..|p| - |LastPart(p)|])
  }

  function Base(p: string): string {
    if p == "" then "."
    else
      var q := TrimRightSlashes(p);
      if q == "" then "/" else LastPart(q)
  }

  // ----- absolute paths by their components -----

  predicate Proper(c: string) {
    c != "" && c != "." && c != ".." && '/' !in c
  }

  predicate AllProper(cs: seq<string>) {
    forall i | 0 <= i < |cs| :: Proper(cs[i])
  }

  /** The clean absolute path with these components. */
  function AbsPath(cs: seq<string>): string {
    "/" + Join(cs, '/')
  }

  /** The components that count: neither empty nor a dot. */
  function Counting(parts: seq<string>): seq<string> {
    if parts == [] then []
    else (if parts[0] == "" || parts[0] == "." then [] else [parts[0]]) + Counting(parts[1..])
  }

  predicate NoDotDot(parts: seq<string>) {
    forall i | 0 <= i < |parts| :: parts[i] != ".."
  }

  /** Without "..", cleaning never takes a component away. */
  lemma {:induction false} PushNeverPops(rooted: bool, stack: seq<string>, parts: seq<string>)
    requires NoDotDot(parts)
    ensures PushAll(rooted, stack, parts) == stack + Counting(parts)
    decreases |parts|
  {
    if parts == [] {
      assert stack + [] == stack;
    } else {
      var p, rest := parts[0], Counting(parts[1..]);
      PushNeverPops(rooted, Push(rooted, stack, p), parts[1..]);
      assert stack + [p] + rest == stack + ([p] + rest);
      assert stack + ([] + rest) == stack + rest;
    }
  }

  lemma {:induction false} CountingProper(parts: seq<string>)
    requires NoDotDot(parts) && FreeOf(parts, '/')
    ensures AllProper(Counting(parts))
  {
    if parts != [] {
      assert parts[0] in parts && forall p | p in parts[1..] :: p in parts;
      CountingProper(parts[1..]);
    }
  }

  lemma {:induction false} CountingKeepsProper(cs: seq<string>)
    requires AllProper(cs)
    ensures Counting(cs) == cs
  {
    if cs != [] {
      CountingKeepsProper(cs[1..]);
    }
  }

  lemma {:induction false} CountingConcat(a: seq<string>, b: seq<string>)
    ensures Counting(a + b) == Counting(a) + Counting(b)
  {
    if a == [] {
      assert a + b == b;
    } else {
      assert (a + b)[1..] == a[1..] + b;
      CountingConcat(a[1..], b);
    }
  }

  lemma SplitAbs(cs: seq<string>)
    requires AllProper(cs)
    ensures Split(AbsPath(cs), '/') == [""] + (if cs == [] then [""] else cs)
  {
    SplitConcat("", Join(cs, '/'), '/');
    assert "" + ['/'] + Join(cs, '/') == AbsPath(cs);
    if cs != [] {
      SplitJoin(cs, '/');
    }
  }

  lemma CountingAbs(cs: seq<string>)
    requires AllProper(cs)
    ensures Counting(Split(AbsPath(cs), '/')) == cs && NoDotDot(Split(AbsPath(cs), '/'))
  {
    SplitAbs(cs);
    CountingKeepsProper(cs);
    var tail := if cs == [] then [""] else cs;
    CountingConcat([""], tail);
    assert Counting([""]) == [] && [] + Counting(tail) == cs;
  }

  /** Joining a path without ".." components to an absolute one appends its
      counting components; nothing of the absolute path is taken away. */
  lemma JoinAppends(cs: seq<string>, rel: string)
    requires AllProper(cs) && NoDotDot(Split(rel, '/'))
    ensures var added := Counting(Split(rel, '/'));
            AllProper(added) && PathJoin(AbsPath(cs), rel) == AbsPath(cs + added)
  {
    var h := AbsPath(cs);
    SplitConcat(h, rel, '/');
    assert h + ['/'] + rel == h + "/" + rel;
    CountingAbs(cs);
    CountingConcat(Split(h, '/'), Split(rel, '/'));
    PushNeverPops(true, [], Split(h, '/') + Split(rel, '/'));
    CountsProperly(rel);
    assert [] + (cs + Counting(Split(rel, '/'))) == cs + Counting(Split(rel, '/'));
  }

  /** Absolute paths made of proper components are exactly the clean ones' form. */
  lemma CleanAbs(cs: seq<string>)
    requires AllProper(cs)
    ensures Clean(AbsPath(cs)) == AbsPath(cs)
  {
    CountingAbs(cs);
    PushNeverPops(true, [], Split(AbsPath(cs), '/'));
    assert [] + cs == cs;
  }

  /** Different components, different paths. */
  lemma AbsPathInjective(a: seq<string>, b: seq<string>)
    requires AllProper(a) && AllProper(b) && AbsPath(a) == AbsPath(b)
    ensures a == b
  {
    CountingAbs(a);
    CountingAbs(b);
  }

  lemma {:induction false} JoinSnoc(cs: seq<string>, c: string)
    ensures Join(cs + [c], '/') == if cs == [] then c else Join(cs, '/') + "/" + c
  {
    if cs == [] {
      assert cs + [c] == [c];
    } else {
      assert (cs + [c])[1..] == cs[1..] + [c];
      JoinSnoc(cs[1..], c);
    }
  }

  lemma BeforeLastPart(init: seq<string>, c: string)
    requires AllProper(init) && Proper(c)
    ensures var p := AbsPath(init + [c]);
            && LastPart(p) == c && |c| <= |p|
            && p[..|p| - |c|] == if init == [] then "/" else AbsPath(init) + "/"
  {
    var p, head := AbsPath(init + [c]), if init == [] then "/" else AbsPath(init) + "/";
    SplitAbs(init + [c]);
    AbsPathSnoc(init, c);
    assert p == head + c && p[..|p| - |c|] == head;
  }

  lemma AbsPathSnoc(init: seq<string>, c: string)
    ensures AbsPath(init + [c]) == (if init == [] then "/" else AbsPath(init) + "/") + c
  {
    JoinSnoc(init, c);
  }

  /** Dir of an absolute path drops its last component. */
  lemma DirDropsLast(cs: seq<string>)
    requires AllProper(cs)
    ensures Dir(AbsPath(cs)) == AbsPath(if cs == [] then [] else cs[..|cs| - 1])
  {
    CleanAbs([]);
    if cs == [] {
      assert AbsPath([]) == "/" && LastPart("/") == "";
      assert "/"[..1] == "/";
    } else {
      var init, c := cs[..|cs| - 1], cs[|cs| - 1];
      assert cs == init + [c];
      BeforeLastPart(init, c);
      if init != [] {
        SlashAtEnd(init);
      }
    }
  }

  lemma SlashAtEnd(cs: seq<string>)
    requires AllProper(cs)
    ensures Clean(AbsPath(cs) + "/") == AbsPath(cs)
  {
    JoinAppends(cs, "");
    assert Split("", '/') == [""] && cs + [] == cs;
    assert AbsPath(cs) + "/" + "" == AbsPath(cs) + "/";
  }

  lemma {:induction false} LastPartOfSlashed(p: string)
    requires p != "" && p[|p| - 1] == '/'
    ensures Counting(Split(p, '/')) == Counting(Split(p[..|p| - 1], '/'))
  {
    var q := p[..|p| - 1];
    assert p == q + ['/'] + "";
    SplitConcat(q, "", '/');
    CountingConcat(Split(q, '/'), [""]);
  }

  lemma {:induction false} TrimmedSlashesCount(p: string)
    ensures Counting(Split(TrimRightSlashes(p), '/')) == Counting(Split(p, '/'))
    ensures TrimRightSlashes(p) <= p
    ensures var q := TrimRightSlashes(p); q == "" || q[|q| - 1] != '/'
  {
    if p != "" && p[|p| - 1] == '/' {
      LastPartOfSlashed(p);
      TrimmedSlashesCount(p[..|p| - 1]);
    }
  }

  lemma LastCounts(q: string)
    requires q != "" && q[|q| - 1] != '/' && LastPart(q) != "."
    ensures var cs := Counting(Split(q, '/')); cs != [] && cs[|cs| - 1] == LastPart(q)
  {
    var parts := Split(q, '/');
    var init, last := parts[..|parts| - 1], LastPart(q);
    assert parts == init + [last];
    LastPartNotEmpty(q);
    CountingConcat(init, [last]);
    assert Counting([last]) == [last];
  }

  /** The base of a relative path without ".." is its last counting component,
      unless it is a dot. */
  lemma BaseIsLastCounting(rel: string)
    requires rel != "" && !IsAbs(rel) && NoDotDot(Split(rel, '/'))
    ensures var cs := Counting(Split(rel, '/'));
            Base(rel) != "." ==> Proper(Base(rel)) && cs != [] && cs[|cs| - 1] == Base(rel)
  {
    var q := TrimRightSlashes(rel);
    NotAllSlashes(rel);
    assert Base(rel) == LastPart(q);
    if LastPart(q) != "." {
      TrimmedSlashesCount(rel);
      LastCounts(q);
      CountsProperly(rel);
    }
  }

  lemma CountsProperly(rel: string)
    requires NoDotDot(Split(rel, '/'))
    ensures AllProper(Counting(Split(rel, '/')))
  {
    SplitParts(rel, '/');
    CountingProper(Split(rel, '/'));
  }

  lemma NotAllSlashes(rel: string)
    requires rel != "" && !IsAbs(rel)
    ensures TrimRightSlashes(rel) != ""
  {
    TrimSlashesMeaning(rel);
    assert rel[0] != '/';
  }

  lemma {:induction false} LastPartNotEmpty(q: string)
    requires q != "" && q[|q| - 1] != '/'
    ensures LastPart(q) != ""
    decreases |q|
  {
    var i := IndexOf(q, '/');
    if i < |q| {
      LastPartNotEmpty(q[i + 1..]);
    }
  }

  // ----- going up, and relative paths -----

  lemma {:induction false} PushAllConcat(rooted: bool, stack: seq<string>, a: seq<string>, b: seq<string>)
    ensures PushAll(rooted, stack, a + b) == PushAll(rooted, PushAll(rooted, stack, a), b)
    decreases |a|
  {
    if a == [] {
      assert a + b == b;
    } else {
      assert (a + b)[1..] == a[1..] + b;
      PushAllConcat(rooted, Push(rooted, stack, a[0]), a[1..], b);
    }
  }

  /** Joining anything to an absolute path walks on from its components. */
  lemma JoinWalks(cs: seq<string>, rel: string)
    requires AllProper(cs)
    ensures PathJoin(AbsPath(cs), rel) == AbsPath(PushAll(true, cs, Split(rel, '/')))
  {
    var h := AbsPath(cs);
    SplitConcat(h, rel, '/');
    assert h + ['/'] + rel == h + "/" + rel;
    PushAllConcat(true, [], Split(h, '/'), Split(rel, '/'));
    CountingAbs(cs);
    PushNeverPops(true, [], Split(h, '/'));
    assert [] + cs == cs;
  }

  /** Two dots drop the last component; the root is its own parent. */
  lemma DotDotGoesUp(cs: seq<string>)
    requires AllProper(cs)
    ensures PathJoin(AbsPath(cs), "..") == AbsPath(if cs == [] then [] else cs[..|cs| - 1])
  {
    IndexOfUnique("..", '/', 2);
    assert Split("..", '/') == [".."] && [".."][1..] == [];
    JoinWalks(cs, "..");
    assert cs != [] ==> Proper(cs[|cs| - 1]);
  }

  /** A relative path without two dots is cleaned to its counting components, and
      to a dot when it has none; two dots at its beginning stay. */
  lemma CleanRelative(rel: string)
    requires !IsAbs(rel) && NoDotDot(Split(rel, '/'))
    ensures var cs := Counting(Split(rel, '/'));
            Clean(rel) == (if cs == [] then "." else Join(cs, '/'))
    ensures Clean("..") == ".."
  {
    PushNeverPops(false, [], Split(rel, '/'));
    assert [] + Counting(Split(rel, '/')) == Counting(Split(rel, '/'));
    IndexOfUnique("..", '/', 2);
    assert Split("..", '/') == [".."] && [".."][1..] == [];
    assert PushAll(false, [], [".."]) == [".."];
  }

  /** The base of an absolute path is its last component. */
  lemma BaseOfAbs(cs: seq<string>)
    requires AllProper(cs)
    ensures Base(AbsPath(cs)) == if cs == [] then "/" else cs[|cs| - 1]
  {
    if cs == [] {
      assert AbsPath(cs) == "/" && "/"[..0] == "";
      assert TrimRightSlashes("/") == "";
    } else {
      var init, c := cs[..|cs| - 1], cs[|cs| - 1];
      assert cs == init + [c] && Proper(c);
      BeforeLastPart(init, c);
      LastPartIsSuffix(AbsPath(cs));
      BaseOfTrimmed(AbsPath(cs), c);
    }
  }

  lemma BaseOfTrimmed(p: string, c: string)
    requires p != "" && Proper(c) && LastPart(p) == c && |c| <= |p| && p[|p| - |c|..] == c
    ensures Base(p) == c
  {
    assert p[|p| - 1] == c[|c| - 1];
    assert TrimRightSlashes(p) == p;
  }
}
