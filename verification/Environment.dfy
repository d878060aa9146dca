/** The child environment: KEY=VALUE lists, their index-accelerated merge and
    the client's allowlist (sshserver/server.go). */
module Environment {
  import opened Wrappers
  import opened Strings

  // ----- what a list of entries means -----

  /** The name of an entry; entries without '=' or with an empty name have none. */
  function KeyOf(e: string): Option<string> {
    var i := IndexOf(e, '=');
    if i == |e| || i == 0 then None else Some(e[..i])
  }

  /** An entry has a name exactly when it is one, not empty and without '=',
      followed by '=' and a value. */
  lemma KeyMeaning(e: string, k: string)
    ensures KeyOf(e) == Some(k) <==> k != "" && '=' !in k && exists v: string :: e == k + "=" + v
  {
    var i := IndexOf(e, '=');
    if KeyOf(e) == Some(k) {
      assert e == k + "=" + e[i + 1..];
    }
    if v: string :| e == k + "=" + v && '=' !in k {
      assert e[..|k|] == k;
      IndexOfUnique(e, '=', |k|);
    }
  }

  /** The value the list gives a name: its last entry wins. */
  function LastEntry(l: seq<string>, k: string): Option<string> {
    if l == [] then None
    else if KeyOf(l[|l| - 1]) == Some(k) then Some(l[|l| - 1])
    else LastEntry(l[..|l| - 1], k)
  }

  /** The names of the list in the order of their first occurrences. */
  function FirstKeys(l: seq<string>): (keys: seq<string>)
    ensures forall k :: k in keys <==> LastEntry(l, k).Some?
    ensures forall i, j | 0 <= i < j < |keys| :: keys[i] != keys[j]
  {
    if l == [] then []
    else
      var keys := FirstKeys(l[..|l| - 1]);
      var k := KeyOf(l[|l| - 1]);
      if k.None? || k.value in keys then keys else keys + [k.value]
  }

  /** Each name once, at the rank of its first occurrence, with its last entry. */
  function Merged(l: seq<string>): (out: seq<string>) {
    var keys := FirstKeys(l);
    seq(|keys|, i requires 0 <= i < |keys| =>
      assert keys[i] in keys; LastEntry(l, keys[i]).value)
  }

  /** LastEntry is the entry for k that no later entry for k follows. */
  lemma {:induction false} LastEntryMeaning(l: seq<string>, k: string, e: string)
    ensures LastEntry(l, k) == Some(e) <==>
            exists i :: 0 <= i < |l| && l[i] == e && KeyOf(l[i]) == Some(k)
                        && forall j | i < j < |l| :: KeyOf(l[j]) != Some(k)
  {
    if l != [] {
      var init := l[..|l| - 1];
      LastEntryMeaning(init, k, e);
      if KeyOf(l[|l| - 1]) == Some(k) {
        assert e == l[|l| - 1] ==> l[|l| - 1] == e && KeyOf(l[|l| - 1]) == Some(k);
      } else {
        if LastEntry(init, k) == Some(e) {
          var i :| 0 <= i < |init| && init[i] == e && KeyOf(init[i]) == Some(k)
                   && forall j | i < j < |init| :: KeyOf(init[j]) != Some(k);
          assert forall j | i < j < |l| :: j < |init| ==> l[j] == init[j];
          assert l[i] == e && forall j | i < j < |l| :: KeyOf(l[j]) != Some(k);
        }
        if exists i :: 0 <= i < |l| && l[i] == e && KeyOf(l[i]) == Some(k)
                       && forall j | i < j < |l| :: KeyOf(l[j]) != Some(k) {
          var i :| 0 <= i < |l| && l[i] == e && KeyOf(l[i]) == Some(k)
                   && forall j | i < j < |l| :: KeyOf(l[j]) != Some(k);
          assert init[i] == e && forall j | i < j < |init| :: init[j] == l[j];
        }
      }
    }
  }

  /** The position of the first entry for k. */
  ghost predicate FirstAt(l: seq<string>, k: string, i: int) {
    0 <= i < |l| && KeyOf(l[i]) == Some(k) && forall j | 0 <= j < i :: KeyOf(l[j]) != Some(k)
  }

  /** Names are ranked by where they first occur. */
  lemma {:induction false} FirstKeysOrder(l: seq<string>, a: nat, b: nat, i: int, j: int)
    requires a < |FirstKeys(l)| && b < |FirstKeys(l)|
    requires FirstAt(l, FirstKeys(l)[a], i) && FirstAt(l, FirstKeys(l)[b], j)
    ensures a < b <==> i < j
  {
    var init := l[..|l| - 1];
    var keys := FirstKeys(init);
    assert forall x | 0 <= x < |init| :: l[x] == init[x];
    if a < |keys| && b < |keys| {
      FirstInInit(l, keys[a], i);
      FirstInInit(l, keys[b], j);
      FirstKeysOrder(init, a, b, i, j);
    } else if a < |keys| {
      FirstInInit(l, keys[a], i);
    } else if b < |keys| {
      FirstInInit(l, keys[b], j);
    }
    if b == |keys| {
      NotBefore(init, FirstKeys(l)[b]);
      assert j == |init|;
    }
    if a == |keys| {
      NotBefore(init, FirstKeys(l)[a]);
      assert i == |init|;
    }
  }

  lemma NotBefore(l: seq<string>, k: string)
    requires k !in FirstKeys(l)
    ensures forall x | 0 <= x < |l| :: KeyOf(l[x]) != Some(k)
  {
    forall x | 0 <= x < |l| ensures KeyOf(l[x]) != Some(k) {
      Occurs(l, k, x);
    }
  }

  lemma {:induction false} Occurs(l: seq<string>, k: string, x: nat)
    requires x < |l|
    ensures KeyOf(l[x]) == Some(k) ==> LastEntry(l, k).Some?
  {
    if x < |l| - 1 {
      Occurs(l[..|l| - 1], k, x);
    }
  }

  lemma FirstInInit(l: seq<string>, k: string, i: int)
    requires l != [] && k in FirstKeys(l[..|l| - 1]) && FirstAt(l, k, i)
    ensures FirstAt(l[..|l| - 1], k, i)
  {
    var init := l[..|l| - 1];
    assert forall x | 0 <= x < |init| :: l[x] == init[x];
    if i == |init| {
      LastEntryMeaning(init, k, LastEntry(init, k).value);
    }
  }

  // ----- merging twice -----

  lemma {:induction false} LastEntryConcat(a: seq<string>, b: seq<string>, k: string)
    ensures LastEntry(a + b, k) == if LastEntry(b, k).Some? then LastEntry(b, k) else LastEntry(a, k)
  {
    if b == [] {
      assert a + b == a;
    } else {
      assert (a + b)[..|a + b| - 1] == a + b[..|b| - 1];
      LastEntryConcat(a, b[..|b| - 1], k);
    }
  }

  lemma {:induction false} FirstKeysConcat(a: seq<string>, a': seq<string>, b: seq<string>)
    requires FirstKeys(a) == FirstKeys(a')
    ensures FirstKeys(a + b) == FirstKeys(a' + b)
  {
    if b == [] {
      assert a + b == a && a' + b == a';
    } else {
      assert (a + b)[..|a + b| - 1] == a + b[..|b| - 1];
      assert (a' + b)[..|a' + b| - 1] == a' + b[..|b| - 1];
      FirstKeysConcat(a, a', b[..|b| - 1]);
    }
  }

  lemma {:induction false} LastEntryKey(l: seq<string>, k: string)
    requires LastEntry(l, k).Some?
    ensures KeyOf(LastEntry(l, k).value) == Some(k)
  {
    if KeyOf(l[|l| - 1]) != Some(k) {
      LastEntryKey(l[..|l| - 1], k);
    }
  }

  /** A list with one entry for each of the names keys, in that order. */
  ghost predicate Spells(out: seq<string>, keys: seq<string>) {
    |out| == |keys| && forall i | 0 <= i < |keys| :: KeyOf(out[i]) == Some(keys[i])
  }

  lemma MergedSpells(l: seq<string>)
    ensures Spells(Merged(l), FirstKeys(l))
  {
    forall i | 0 <= i < |FirstKeys(l)| ensures KeyOf(Merged(l)[i]) == Some(FirstKeys(l)[i]) {
      assert FirstKeys(l)[i] in FirstKeys(l);
      LastEntryKey(l, FirstKeys(l)[i]);
    }
  }

  lemma {:induction false} SpelledKeys(out: seq<string>, keys: seq<string>)
    requires Spells(out, keys)
    requires forall i, j | 0 <= i < j < |keys| :: keys[i] != keys[j]
    ensures FirstKeys(out) == keys
    ensures forall i | 0 <= i < |keys| :: LastEntry(out, keys[i]) == Some(out[i])
  {
    if out != [] {
      SpelledKeys(out[..|out| - 1], keys[..|keys| - 1]);
    }
  }

  /** The merge keeps the names, their order and the value of every name. */
  lemma MergedKeepsMeaning(l: seq<string>)
    ensures FirstKeys(Merged(l)) == FirstKeys(l)
    ensures forall k :: LastEntry(Merged(l), k) == LastEntry(l, k)
  {
    MergedSpells(l);
    SpelledKeys(Merged(l), FirstKeys(l));
    forall k ensures LastEntry(Merged(l), k) == LastEntry(l, k) {
      if k in FirstKeys(l) {
        var i :| 0 <= i < |FirstKeys(l)| && FirstKeys(l)[i] == k;
      } else {
        assert k !in FirstKeys(Merged(l));
      }
    }
  }

  /** Merging in two stages is merging once: mergeEnv(mergeEnv(a, b), c) is
      mergeEnv(a, b ++ c). With c empty, merging is idempotent. */
  lemma TwoStagesAreOne(a: seq<string>, b: seq<string>, c: seq<string>)
    ensures Merged(Merged(a + b) + c) == Merged(a + (b + c))
    ensures Merged(Merged(a + b)) == Merged(a + b)
  {
    MergedTwice(a + b, c);
    assert a + b + c == a + (b + c);
    MergedTwice(a + b, []);
    assert Merged(a + b) + [] == Merged(a + b) && a + b + [] == a + b;
  }

  lemma MergedTwice(l: seq<string>, c: seq<string>)
    ensures Merged(Merged(l) + c) == Merged(l + c)
  {
    MergedKeepsMeaning(l);
    FirstKeysConcat(Merged(l), l, c);
    var keys := FirstKeys(l + c);
    forall i | 0 <= i < |keys| ensures LastEntry(Merged(l) + c, keys[i]) == LastEntry(l + c, keys[i]) {
      LastEntryConcat(Merged(l), c, keys[i]);
      LastEntryConcat(l, c, keys[i]);
    }
  }

  // ----- mergeEnv -----

  /** The index map is a bijection from the names seen onto output positions. */
  ghost predicate Indexes(idx: map<string, nat>, keys: seq<string>) {
    && (forall k :: k in idx <==> k in keys)
    && (forall k | k in idx :: idx[k] < |keys| && keys[idx[k]] == k)
  }

  /** An entry without a name changes nothing about the merge. */
  lemma MergeNameless(seen: seq<string>, e: string)
    requires KeyOf(e) == None
    ensures FirstKeys(seen + [e]) == FirstKeys(seen) && Merged(seen + [e]) == Merged(seen)
  {
    var l := seen + [e];
    assert l[..|l| - 1] == seen;
    assert forall k :: LastEntry(l, k) == LastEntry(seen, k);
  }

  /** An entry for a name already there takes the place of that name's entry. */
  lemma MergeAgain(seen: seq<string>, e: string, k: string, i: nat)
    requires KeyOf(e) == Some(k) && i < |FirstKeys(seen)| && FirstKeys(seen)[i] == k
    ensures FirstKeys(seen + [e]) == FirstKeys(seen) && Merged(seen + [e]) == Merged(seen)[i := e]
  {
    var l, keys := seen + [e], FirstKeys(seen);
    assert l[..|l| - 1] == seen && k in keys;
    forall j | 0 <= j < |keys| ensures Merged(l)[j] == Merged(seen)[i := e][j] {
      assert j != i ==> keys[j] != k;
    }
  }

  /** An entry for a new name goes to the end. */
  lemma MergeNew(seen: seq<string>, e: string, k: string)
    requires KeyOf(e) == Some(k) && k !in FirstKeys(seen)
    ensures FirstKeys(seen + [e]) == FirstKeys(seen) + [k] && Merged(seen + [e]) == Merged(seen) + [e]
  {
    var l, keys := seen + [e], FirstKeys(seen);
    assert l[..|l| - 1] == seen;
    forall j | 0 <= j < |keys| ensures Merged(l)[j] == Merged(seen)[j] {
      assert keys[j] in keys;
    }
  }

  lemma IndexesKept(idx: map<string, nat>, keys: seq<string>, k: string)
    requires Indexes(idx, keys) && k !in keys
    ensures Indexes(idx[k := |keys|], keys + [k])
  {}

  /** The closure add: put one more entry into the output. */
  method Add(idx: map<string, nat>, out: seq<string>, e: string, ghost seen: seq<string>)
    returns (idx': map<string, nat>, out': seq<string>)
    requires Indexes(idx, FirstKeys(seen)) && out == Merged(seen)
    ensures Indexes(idx', FirstKeys(seen + [e])) && out' == Merged(seen + [e])
  {
    var cut := IndexOf(e, '=');
    if cut == |e| || cut == 0 {
      MergeNameless(seen, e);
      return idx, out;
    }
    var k := e[..cut];
    if k in idx {
      MergeAgain(seen, e, k, idx[k]);
      idx', out' := idx, out[idx[k] := e];
    } else {
      MergeNew(seen, e, k);
      IndexesKept(idx, FirstKeys(seen), k);
      idx', out' := idx[k := |out|], out + [e];
    }
  }

  method MergeEnv(base: seq<string>, extra: seq<string>) returns (out: seq<string>)
    ensures out == Merged(base + extra)
  {
    var idx: map<string, nat> := map[];
    out := [];
    for i := 0 to |base|
      invariant Indexes(idx, FirstKeys(base[..i])) && out == Merged(base[..i])
    {
      assert base[..i + 1] == base[..i] + [base[i]];
      idx, out := Add(idx, out, base[i], base[..i]);
    }
    assert base[..|base|] == base == base + extra[..0];
    for i := 0 to |extra|
      invariant Indexes(idx, FirstKeys(base + extra[..i])) && out == Merged(base + extra[..i])
    {
      assert base + extra[..i + 1] == base + extra[..i] + [extra[i]];
      idx, out := Add(idx, out, extra[i], base + extra[..i]);
    }
    assert base + extra[..|extra|] == base + extra;
  }

  // ----- the allowlist -----

  const NO_LOGIN_SHELL := "WHALESHELL_NO_LOGIN_SHELL"

  predicate EnvAllowed(name: string) {
    name in {"TERM", "COLORTERM", "LANG", "LANGUAGE", "TZ", NO_LOGIN_SHELL} || "LC_" <= name
  }

  /** The names a client may set. */
  predicate ClientMaySet(name: string) {
    || name == "TERM" || name == "COLORTERM" || name == "LANG" || name == "LANGUAGE" || name == "TZ"
    || name == "WHALESHELL_NO_LOGIN_SHELL"
    || (|name| >= 3 && name[0] == 'L' && name[1] == 'C' && name[2] == '_')
  }

  lemma AllowedMeaning(name: string)
    ensures EnvAllowed(name) <==> ClientMaySet(name)
  {
    if "LC_" <= name {
      assert "LC_"[0] == name[0] && "LC_"[1] == name[1] && "LC_"[2] == name[2];
    }
    if |name| >= 3 && name[0] == 'L' && name[1] == 'C' && name[2] == '_' {
      assert name[..3] == "LC_";
    }
  }

  lemma ListedNamesHaveNoEquals(name: string)
    requires EnvAllowed(name) && !("LC_" <= name)
    ensures '=' !in name && name != ""
  {}

  lemma CutInsideName(name: string, value: string) returns (i: nat)
    ensures i <= |name| && i == IndexOf(name + "=" + value, '=') && (name + "=" + value)[..i] == name[..i]
    ensures '=' !in name[..i] && (i < |name| ==> name[i] == '=')
  {
    var e := name + "=" + value;
    assert e[|name|] == '=' && forall j | 0 <= j < |name| :: e[j] == name[j];
    i := IndexOf(e, '=');
  }

  lemma LcSurvivesCut(name: string, i: nat)
    requires "LC_" <= name && i <= |name| && (i < |name| ==> name[i] == '=')
    ensures "LC_" <= name[..i]
  {
    assert name[0] == 'L' && name[1] == 'C' && name[2] == '_';
    assert i >= 3;
  }

  /** Whatever the requested name and value contain, the entry made of an
      accepted request sets an allowed name: a '=' inside the name only moves
      the cut to the left, and never into "LC_". */
  lemma AcceptedEntrySetsAllowedName(name: string, value: string)
    requires EnvAllowed(name)
    ensures var k := KeyOf(name + "=" + value); k.Some? && EnvAllowed(k.value) && k.value <= name
  {
    var i := CutInsideName(name, value);
    if "LC_" <= name {
      LcSurvivesCut(name, i);
    } else {
      ListedNamesHaveNoEquals(name);
      assert i == |name| && name[..i] == name;
    }
  }

  /** The entries the client and its terminal add can set allowed names only. */
  ghost predicate SetsAllowedOnly(l: seq<string>) {
    forall i | 0 <= i < |l| :: KeyOf(l[i]).Some? ==> EnvAllowed(KeyOf(l[i]).value)
  }

  lemma OtherNamesUntouched(base: seq<string>, added: seq<string>, k: string)
    requires SetsAllowedOnly(added) && !EnvAllowed(k)
    ensures LastEntry(Merged(base + added), k) == LastEntry(base, k)
  {
    MergedKeepsMeaning(base + added);
    LastEntryConcat(base, added, k);
    if LastEntry(added, k).Some? {
      LastEntryMeaning(added, k, LastEntry(added, k).value);
    }
  }
}
