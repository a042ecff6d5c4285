/**
  Properties of the whole registration loop of `cmdline`: what the tree
  looks like after every command has been registered, and which handler a
  command line reaches.
 */
module Build {
  import opened Wrappers
  import opened Names
  import opened Discovery
  import opened Tree

  /** No cached group is `g` (true of a top-level group created after the cache was filled). */
  ghost predicate Uncached(s: State, g: GroupId)
  {
    forall k :: k in s.structure ==> s.structure[k] != g
  }

  /** Group `g` maps `c` to a parser whose `func` default is `h`. */
  ghost predicate Leads(s: State, g: GroupId, c: string, h: Handler)
  {
    && g < |s.groups|
    && c in s.groups[g].choices
    && s.groups[g].choices[c] < |s.nodes|
    && s.nodes[s.groups[g].choices[c]].handler == Some(h)
  }

  lemma LeadsDispatch(s: State, g: GroupId, c: string, h: Handler, current: Option<Handler>)
    requires WellFormed(s) && Leads(s, g, c, h)
    ensures Walk(s, g, [c], current) == Call(h)
  {
    var p := s.nodes[s.groups[g].choices[c]];
    if p.subgroup.Some? {
      assert Walk(s, g, [c], current) == Walk(s, p.subgroup.value, [], Some(h));
    }
  }

  /** Registering a list of names is registering a prefix of it and then the rest. */
  lemma {:induction false} RegisterSplit(s: State, g: GroupId, subcmds: map<string, SubCmd>, names: seq<string>, levels: int, k: nat)
    requires WellFormed(s) && g < |s.groups|
    requires forall n :: n in names ==> n in subcmds
    requires k <= |names|
    ensures Register(s, g, subcmds, names, levels)
            == Register(Register(s, g, subcmds, names[..k], levels), g, subcmds, names[k..], levels)
    decreases k
  {
    if k == 0 {
      assert names[..0] == [] && names[0..] == names;
    } else {
      var s1 := Step(s, g, subcmds[names[0]], names[0], levels);
      RegisterSplit(s1, g, subcmds, names[1..], levels, k - 1);
      assert names[1..][..k - 1] == names[1..k] && names[1..][k - 1..] == names[k..];
      assert names[..k][0] == names[0] && names[..k][1..] == names[1..k];
    }
  }

  /** One loop turn keeps every existing parser and every cached group. */
  lemma StepFrame(s: State, g: GroupId, sc: SubCmd, name: string, levels: int)
    requires WellFormed(s) && g < |s.groups|
    ensures var r := Step(s, g, sc, name, levels);
      && r.nodes[..|s.nodes|] == s.nodes
      && (forall k :: k in s.structure ==> k in r.structure && r.structure[k] == s.structure[k])
      && (forall k :: k in r.structure && k !in s.structure ==> r.structure[k] >= |s.groups|)
      && (levels == 0 ==> r.structure == s.structure)
      && (levels != 0 ==> r.structure.Keys == s.structure.Keys + {Head(name)})
  {
    if levels == 0 {
      AddParserDispatch(s, g, sc, None, None);
    } else {
      ParseFrame(s, g, sc, name);
    }
  }

  /** The registration loop keeps every existing parser. */
  lemma {:induction false} RegisterKeepsNodes(s: State, g: GroupId, subcmds: map<string, SubCmd>, names: seq<string>, levels: int)
    requires WellFormed(s) && g < |s.groups|
    requires forall n :: n in names ==> n in subcmds
    ensures var r := Register(s, g, subcmds, names, levels);
      |r.nodes| >= |s.nodes| && r.nodes[..|s.nodes|] == s.nodes
    decreases |names|
  {
    if names != [] {
      var s1 := Step(s, g, subcmds[names[0]], names[0], levels);
      StepFrame(s, g, subcmds[names[0]], names[0], levels);
      RegisterKeepsNodes(s1, g, subcmds, names[1..], levels);
      var r := Register(s1, g, subcmds, names[1..], levels);
      assert r.nodes[..|s.nodes|] == r.nodes[..|s1.nodes|][..|s.nodes|];
    }
  }

  /**
    The registration loop never overwrites a cached group and binds new
    heads to new groups; with the level setting falsy the cache is untouched.
   */
  lemma {:induction false} RegisterKeepsCache(s: State, g: GroupId, subcmds: map<string, SubCmd>, names: seq<string>, levels: int)
    requires WellFormed(s) && g < |s.groups|
    requires forall n :: n in names ==> n in subcmds
    ensures var r := Register(s, g, subcmds, names, levels);
      && (forall k :: k in s.structure ==> k in r.structure && r.structure[k] == s.structure[k])
      && (forall k :: k in r.structure && k !in s.structure ==> r.structure[k] >= |s.groups|)
      && (levels == 0 ==> r.structure == s.structure)
    decreases |names|
  {
    if names != [] {
      var s1 := Step(s, g, subcmds[names[0]], names[0], levels);
      StepFrame(s, g, subcmds[names[0]], names[0], levels);
      RegisterKeepsCache(s1, g, subcmds, names[1..], levels);
    }
  }

  /** With a truthy level setting the cache gains exactly the heads of the registered names. */
  lemma {:induction false} RegisterCacheKeys(s: State, g: GroupId, subcmds: map<string, SubCmd>, names: seq<string>, levels: int)
    requires WellFormed(s) && g < |s.groups| && levels != 0
    requires forall n :: n in names ==> n in subcmds
    ensures forall k :: k in Register(s, g, subcmds, names, levels).structure
                        <==> k in s.structure || exists m :: m in names && Head(m) == k
    decreases |names|
  {
    if names != [] {
      var s1 := Step(s, g, subcmds[names[0]], names[0], levels);
      StepFrame(s, g, subcmds[names[0]], names[0], levels);
      RegisterCacheKeys(s1, g, subcmds, names[1..], levels);
      forall k
        ensures (k in s1.structure || exists m :: m in names[1..] && Head(m) == k)
                <==> (k in s.structure || exists m :: m in names && Head(m) == k)
      {
        if exists m :: m in names && Head(m) == k {
          var m :| m in names && Head(m) == k;
          if m != names[0] {
            assert m in names[1..];
          }
        }
      }
    }
  }

  /**
    With the level setting falsy, a slot of `g` whose name is not
    registered again keeps its parser.
   */
  lemma {:induction false} FlatKeep(s: State, g: GroupId, subcmds: map<string, SubCmd>, names: seq<string>, c: string, h: Handler)
    requires WellFormed(s) && g < |s.groups|
    requires forall n :: n in names ==> n in subcmds
    requires NamedByKey(subcmds) && c !in names && Leads(s, g, c, h)
    ensures Leads(Register(s, g, subcmds, names, 0), g, c, h)
    decreases |names|
  {
    if names != [] {
      var s1 := Step(s, g, subcmds[names[0]], names[0], 0);
      AddParserDispatch(s, g, subcmds[names[0]], None, None);
      assert s1.nodes[s.groups[g].choices[c]] == s1.nodes[..|s.nodes|][s.groups[g].choices[c]];
      FlatKeep(s1, g, subcmds, names[1..], c, h);
    }
  }

  /**
    With the level setting falsy every command becomes a direct child of
    `g` under its full (underscored) name, listed in registration order, and
    dispatches to its own handler; the cache is not touched.
   */
  lemma {:induction false} FlatRegister(s: State, g: GroupId, subcmds: map<string, SubCmd>, names: seq<string>)
    requires WellFormed(s) && g < |s.groups|
    requires forall n :: n in names ==> n in subcmds
    requires NamedByKey(subcmds) && Distinct(names)
    ensures var r := Register(s, g, subcmds, names, 0);
      && r.groups[g].listing == s.groups[g].listing + names
      && (forall c :: c in r.groups[g].choices <==> c in s.groups[g].choices || c in names)
      && (forall n :: n in names ==> Leads(r, g, n, subcmds[n].func))
      && r.structure == s.structure
    decreases |names|
  {
    if names != [] {
      var n0 := names[0];
      var s1 := Step(s, g, subcmds[n0], n0, 0);
      AddParserDispatch(s, g, subcmds[n0], None, None);
      assert Leads(s1, g, n0, subcmds[n0].func);
      FlatRegister(s1, g, subcmds, names[1..]);
      var r := Register(s1, g, subcmds, names[1..], 0);
      assert n0 !in names[1..];
      FlatKeep(s1, g, subcmds, names[1..], n0, subcmds[n0].func);
      RegisterKeepsCache(s1, g, subcmds, names[1..], 0);
      assert s.groups[g].listing + names == s.groups[g].listing + [n0] + names[1..];
      assert names == [n0] + names[1..];
    }
  }

  /**
    With a truthy level setting, a slot of the top-level group `g` whose
    name is cached and not registered again keeps its parser: later names
    only add their own bare name, or a head not yet cached, to `g`.
   */
  lemma {:induction false} NestedKeepTop(s: State, g: GroupId, subcmds: map<string, SubCmd>, names: seq<string>, levels: int, c: string, h: Handler)
    requires WellFormed(s) && g < |s.groups| && levels != 0
    requires forall n :: n in names ==> n in subcmds
    requires NamedByKey(subcmds) && Uncached(s, g)
    requires c !in names && c in s.structure && Leads(s, g, c, h)
    ensures var r := Register(s, g, subcmds, names, levels);
      Leads(r, g, c, h) && r.groups[g].choices[c] == s.groups[g].choices[c] && Uncached(r, g)
    decreases |names|
  {
    if names != [] {
      var n0 := names[0];
      var sc := subcmds[n0];
      var s1 := Step(s, g, sc, n0, levels);
      ParseFrame(s, g, sc, n0);
      var t := Target(s, g, sc, n0);
      assert t != (g, c) by {
        if Tail(n0) == [] {
          assert t == (g, n0);
        } else if Head(n0) in s.structure {
          assert t.0 == s.structure[Head(n0)] != g;
        } else {
          assert t == (g, Head(n0));
        }
      }
      var idx := s.groups[g].choices[c];
      assert s1.groups[g].choices[c] == idx;
      assert s1.nodes[idx] == s1.nodes[..|s.nodes|][idx];
      NestedKeepTop(s1, g, subcmds, names[1..], levels, c, h);
    }
  }

  /**
    With a truthy level setting, every registered name without a separator
    is a child of the top-level group `g` that dispatches to its own
    handler, whatever the cache held before.
   */
  lemma {:induction false} NestedBare(s: State, g: GroupId, subcmds: map<string, SubCmd>, names: seq<string>, levels: int, n: string)
    requires WellFormed(s) && g < |s.groups| && levels != 0
    requires forall m :: m in names ==> m in subcmds
    requires NamedByKey(subcmds) && Distinct(names) && Uncached(s, g)
    requires n in names && Sep !in n
    ensures Leads(Register(s, g, subcmds, names, levels), g, n, subcmds[n].func)
    decreases |names|
  {
    var n0 := names[0];
    var sc := subcmds[n0];
    var s1 := Step(s, g, sc, n0, levels);
    ParseFrame(s, g, sc, n0);
    assert Uncached(s1, g);
    if n0 == n {
      ParseBare(s, g, sc, n, None);
      assert n !in names[1..];
      NestedKeepTop(s1, g, subcmds, names[1..], levels, n, sc.func);
    } else {
      NestedBare(s1, g, subcmds, names[1..], levels, n);
    }
  }

  /** The only key of the cache bound to group `grp` is `h`. */
  ghost predicate OnlyKeyFor(s: State, h: string, grp: GroupId)
  {
    h in s.structure && s.structure[h] == grp && forall k :: k in s.structure && k != h ==> s.structure[k] != grp
  }

  /**
    With a truthy level setting, a slot `c` of the group cached under `h`
    keeps its parser as long as no later name with head `h` adds a child
    of the same name.
   */
  lemma {:induction false} NestedKeepSub(s: State, g: GroupId, subcmds: map<string, SubCmd>, names: seq<string>, levels: int,
                                         h: string, grp: GroupId, c: string, idx: NodeId)
    requires WellFormed(s) && g < |s.groups| && levels != 0
    requires forall m :: m in names ==> m in subcmds
    requires OnlyKeyFor(s, h, grp) && grp != g
    requires c in s.groups[grp].choices && s.groups[grp].choices[c] == idx
    requires forall m :: m in names && Tail(m) != [] && Head(m) == h ==> ChildName(Some(Join(Tail(m))), subcmds[m]) != c
    ensures var r := Register(s, g, subcmds, names, levels);
      grp < |r.groups| && c in r.groups[grp].choices && r.groups[grp].choices[c] == idx
    decreases |names|
  {
    if names != [] {
      var n0 := names[0];
      var sc := subcmds[n0];
      var s1 := Step(s, g, sc, n0, levels);
      ParseFrame(s, g, sc, n0);
      var t := Target(s, g, sc, n0);
      assert t != (grp, c) by {
        if Tail(n0) != [] && Head(n0) in s.structure && s.structure[Head(n0)] == grp {
          assert Head(n0) == h;
        }
      }
      assert OnlyKeyFor(s1, h, grp);
      NestedKeepSub(s1, g, subcmds, names[1..], levels, h, grp, c, idx);
    }
  }

  /** In ascending order, no name before a bare name `h` has `h` as its head. */
  lemma HeadNotBefore(names: seq<string>, i: nat)
    requires i < |names| && Ascending(names) && Sep !in names[i]
    ensures forall m :: m in names[..i] ==> Head(m) != names[i]
  {
    forall m | m in names[..i]
      ensures Head(m) != names[i]
    {
      var j :| 0 <= j < i && names[j] == m;
      assert Below(m, names[i]);
      if Tail(m) == [] {
        HeadTail(m);
        BelowIrreflexive(m);
      } else if Head(m) == names[i] {
        ExtensionAfter(m);
        BelowTotal(m, names[i]);
      }
    }
  }

  /**
    The top-level group `g` maps the command `h` to a parser whose `func`
    default is `fh` and whose own group `grp` is the one cached under `h`,
    and under no other key.
   */
  ghost predicate HeadAt(s: State, g: GroupId, h: string, fh: Handler, grp: GroupId)
  {
    && Leads(s, g, h, fh)
    && s.nodes[s.groups[g].choices[h]].subgroup == Some(grp)
    && OnlyKeyFor(s, h, grp)
    && grp != g
  }

  /** Registering a bare command whose name is not cached gives it a fresh group cached under its name. */
  lemma HeadOpened(s: State, g: GroupId, sc: SubCmd, h: string, levels: int) returns (grp: GroupId)
    requires WellFormed(s) && g < |s.groups| && levels != 0 && Uncached(s, g)
    requires Sep !in h && sc.name == h && h !in s.structure
    ensures var r := Step(s, g, sc, h, levels);
      HeadAt(r, g, h, sc.func, grp) && Uncached(r, g)
  {
    ParseBare(s, g, sc, h, None);
    ParseFrame(s, g, sc, h);
    grp := |s.groups|;
  }

  /** Later registrations that do not repeat `h` keep its slot, its parser and its cached group. */
  lemma HeadKept(s: State, g: GroupId, subcmds: map<string, SubCmd>, names: seq<string>, levels: int, h: string, fh: Handler, grp: GroupId)
    requires WellFormed(s) && g < |s.groups| && levels != 0
    requires forall m :: m in names ==> m in subcmds
    requires NamedByKey(subcmds) && Uncached(s, g) && h !in names
    requires HeadAt(s, g, h, fh, grp)
    ensures var r := Register(s, g, subcmds, names, levels);
      HeadAt(r, g, h, fh, grp) && Uncached(r, g)
  {
    var r := Register(s, g, subcmds, names, levels);
    NestedKeepTop(s, g, subcmds, names, levels, h, fh);
    RegisterKeepsNodes(s, g, subcmds, names, levels);
    RegisterKeepsCache(s, g, subcmds, names, levels);
    var idx := s.groups[g].choices[h];
    assert r.nodes[idx] == r.nodes[..|s.nodes|][idx];
    assert grp < |s.groups|;
    forall k | k in r.structure && k != h
      ensures r.structure[k] != grp
    {
      if k in s.structure {
        assert r.structure[k] == s.structure[k];
      }
    }
  }

  /** Registering an underscored name under the cached head `h` adds its remainder to `h`'s group. */
  lemma LeafAdded(s: State, g: GroupId, sc: SubCmd, n: string, levels: int, h: string, fh: Handler, grp: GroupId)
    requires WellFormed(s) && g < |s.groups| && levels != 0 && Uncached(s, g)
    requires Tail(n) != [] && Head(n) == h && Join(Tail(n)) != "" && HeadAt(s, g, h, fh, grp)
    ensures LeafReady(Step(s, g, sc, n, levels), g, h, fh, grp, Join(Tail(n)), |s.nodes|, sc)
  {
    var r := Step(s, g, sc, n, levels);
    ParseCachedHead(s, g, sc, n, None);
    ParseFrame(s, g, sc, n);
    var idx := s.groups[g].choices[h];
    assert r.nodes[idx] == r.nodes[..|s.nodes|][idx];
  }

  /** A head command and one child of its group make a two-word command line. */
  lemma TwoWords(s: State, g: GroupId, h: string, fh: Handler, grp: GroupId, rest: string, sc: SubCmd)
    requires WellFormed(s) && HeadAt(s, g, h, fh, grp)
    requires rest in s.groups[grp].choices
    requires s.groups[grp].choices[rest] < |s.nodes| && s.nodes[s.groups[grp].choices[rest]] == LeafParser(sc)
    ensures Walk(s, g, [h, rest], None) == Call(sc.func)
  {
    assert grp < |s.groups|;
    assert Walk(s, g, [h, rest], None) == Walk(s, grp, [rest], Some(fh));
  }

  /**
    No later name adds a child named `rest` to the group of the head `h`:
    the condition under which a registered `h rest` stays in place.
   */
  ghost predicate NoLaterClash(subcmds: map<string, SubCmd>, later: seq<string>, h: string, rest: string)
    requires forall m :: m in later ==> m in subcmds
  {
    forall m :: m in later && Tail(m) != [] && Head(m) == h ==> ChildName(Some(Join(Tail(m))), subcmds[m]) != rest
  }

  /**
    In ascending order, no name after the underscored name `names[j]`, whose
    remainder is not empty, adds a child named like that remainder to the
    group of its head: a later name with the same head and remainder would
    be `names[j]` itself, and a later name with an empty remainder would be
    the head followed by one separator, a proper prefix of `names[j]`.
   */
  lemma LaterMiss(subcmds: map<string, SubCmd>, names: seq<string>, j: nat)
    requires NamedByKey(subcmds) && (forall m :: m in names ==> m in subcmds) && Ascending(names)
    requires j < |names| && Tail(names[j]) != [] && Join(Tail(names[j])) != ""
    ensures NoLaterClash(subcmds, names[j + 1..], Head(names[j]), Join(Tail(names[j])))
  {
    var n := names[j];
    HeadTail(n);
    forall m | m in names[j + 1..] && Tail(m) != [] && Head(m) == Head(n)
      ensures ChildName(Some(Join(Tail(m))), subcmds[m]) != Join(Tail(n))
    {
      var l :| j + 1 <= l < |names| && names[l] == m;
      assert Below(n, m);
      HeadTail(m);
      if Join(Tail(m)) == "" {
        EmptyRemainder(m);
        assert n == m + Join(Tail(n));
        PrefixBelow(m, Join(Tail(n)));
        BelowTotal(m, n);
      } else if Join(Tail(m)) == Join(Tail(n)) {
        BelowIrreflexive(n);
      }
    }
  }

  /** One turn of the registration loop, taken from the front of the remaining names. */
  lemma RegisterUnfold(s: State, next: State, g: GroupId, subcmds: map<string, SubCmd>, names: seq<string>, levels: int, i: nat)
    requires WellFormed(s) && g < |s.groups| && i < |names|
    requires forall n :: n in names ==> n in subcmds
    requires next == Step(s, g, subcmds[names[i]], names[i], levels)
    ensures WellFormed(next) && g < |next.groups|
    ensures Register(s, g, subcmds, names[i..], levels) == Register(next, g, subcmds, names[i + 1..], levels)
  {
    assert names[i..][0] == names[i] && names[i..][1..] == names[i + 1..];
  }

  /** Registering one more name of the list is one more loop turn. */
  lemma RegisterSnoc(s: State, g: GroupId, subcmds: map<string, SubCmd>, names: seq<string>, levels: int, j: nat, k: nat)
    requires WellFormed(s) && g < |s.groups|
    requires forall m :: m in names ==> m in subcmds
    requires j < |names| && k == j + 1
    ensures Register(s, g, subcmds, names[..k], levels)
            == Step(Register(s, g, subcmds, names[..j], levels), g, subcmds[names[j]], names[j], levels)
  {
    RegisterSplit(s, g, subcmds, names[..k], levels, j);
    assert names[..k][..j] == names[..j];
    assert names[..k][j..] == [names[j]];
  }

  /** Ascending registration reaches the bare command `names[i]` before its name is cached, and opens its group. */
  lemma HeadRegistered(s: State, g: GroupId, subcmds: map<string, SubCmd>, names: seq<string>, levels: int, i: nat) returns (grp: GroupId)
    requires WellFormed(s) && g < |s.groups| && levels != 0
    requires forall m :: m in names ==> m in subcmds
    requires NamedByKey(subcmds) && Uncached(s, g)
    requires i < |names| && Sep !in names[i] && names[i] !in s.structure
    requires forall m :: m in names[..i] ==> Head(m) != names[i]
    ensures var r := Register(s, g, subcmds, names[..i + 1], levels);
      HeadAt(r, g, names[i], subcmds[names[i]].func, grp) && Uncached(r, g)
  {
    var h := names[i];
    var sA := Register(s, g, subcmds, names[..i], levels);
    RegisterKeepsCache(s, g, subcmds, names[..i], levels);
    RegisterCacheKeys(s, g, subcmds, names[..i], levels);
    assert h !in sA.structure;
    RegisterSnoc(s, g, subcmds, names, levels, i, i + 1);
    grp := HeadOpened(sA, g, subcmds[h], h, levels);
  }

  /**
    After registering up to the underscored name `names[j]`, whose head is
    the earlier bare command `names[i]`, the head still owns its group and
    that group maps the remainder to `names[j]`'s own parser.
   */
  lemma LeafRegistered(s: State, g: GroupId, subcmds: map<string, SubCmd>, names: seq<string>, levels: int, i: nat, j: nat, k: nat)
    returns (sD: State, grp: GroupId, idx: NodeId)
    requires WellFormed(s) && g < |s.groups| && levels != 0
    requires forall m :: m in names ==> m in subcmds
    requires NamedByKey(subcmds) && Uncached(s, g)
    requires i < j < |names| && Sep !in names[i] && names[i] !in s.structure
    requires forall m :: m in names[..i] ==> Head(m) != names[i]
    requires names[i] !in names[i + 1..j]
    requires Tail(names[j]) != [] && Head(names[j]) == names[i] && Join(Tail(names[j])) != ""
    requires k == j + 1
    ensures sD == Register(s, g, subcmds, names[..k], levels)
    ensures LeafReady(sD, g, names[i], subcmds[names[i]].func, grp, Join(Tail(names[j])), idx, subcmds[names[j]])
  {
    var h, n := names[i], names[j];
    grp := HeadRegistered(s, g, subcmds, names, levels, i);
    var sB := Register(s, g, subcmds, names[..i + 1], levels);
    RegisterSplit(s, g, subcmds, names[..j], levels, i + 1);
    assert names[..j][..i + 1] == names[..i + 1];
    var between := names[..j][i + 1..];
    assert between == names[i + 1..j];
    HeadKept(sB, g, subcmds, between, levels, h, subcmds[h].func, grp);
    var sC := Register(s, g, subcmds, names[..j], levels);
    RegisterSnoc(s, g, subcmds, names, levels, j, k);
    LeafAdded(sC, g, subcmds[n], n, levels, h, subcmds[h].func, grp);
    idx := |sC.nodes|;
    sD := Step(sC, g, subcmds[n], n, levels);
  }

  /** `h rest` leads through the head's parser to the parser `idx` created for `sc`. */
  ghost predicate LeafReady(s: State, g: GroupId, h: string, fh: Handler, grp: GroupId, rest: string, idx: NodeId, sc: SubCmd)
  {
    && Uncached(s, g) && HeadAt(s, g, h, fh, grp)
    && grp < |s.groups| && rest in s.groups[grp].choices && s.groups[grp].choices[rest] == idx
    && idx < |s.nodes| && s.nodes[idx] == LeafParser(sc)
  }

  /**
    Registrations that neither repeat the head nor add a child of the same
    name to its group keep the two-word command line.
   */
  lemma AfterLeaf(s: State, g: GroupId, subcmds: map<string, SubCmd>, later: seq<string>, levels: int,
                  h: string, fh: Handler, grp: GroupId, rest: string, idx: NodeId, sc: SubCmd)
    requires WellFormed(s) && g < |s.groups| && levels != 0
    requires forall m :: m in later ==> m in subcmds
    requires NamedByKey(subcmds) && h !in later
    requires LeafReady(s, g, h, fh, grp, rest, idx, sc)
    requires NoLaterClash(subcmds, later, h, rest)
    ensures Walk(Register(s, g, subcmds, later, levels), g, [h, rest], None) == Call(sc.func)
  {
    HeadKept(s, g, subcmds, later, levels, h, fh, grp);
    NestedKeepSub(s, g, subcmds, later, levels, h, grp, rest, idx);
    RegisterKeepsNodes(s, g, subcmds, later, levels);
    var r := Register(s, g, subcmds, later, levels);
    assert r.nodes[idx] == r.nodes[..|s.nodes|][idx];
    TwoWords(r, g, h, fh, grp, rest, sc);
  }

  /** In ascending order a bare head comes before its extension. */
  lemma HeadPosition(names: seq<string>, n: string) returns (i: nat, j: nat)
    requires Ascending(names)
    requires n in names && Tail(n) != [] && Head(n) in names
    ensures i < j < |names| && names[i] == Head(n) && names[j] == n
    ensures Sep !in names[i]
  {
    HeadTail(n);
    i :| 0 <= i < |names| && names[i] == Head(n);
    j :| 0 <= j < |names| && names[j] == n;
    ExtensionAfter(n);
    if j < i {
      BelowTotal(n, Head(n));
    }
  }

  /**
    With a truthy level setting and names registered in ascending order:
    when the head `h` of an underscored name `n` is itself a registered
    command and was not cached beforehand, the command line `h rest` (rest
    being the remainder after the first separator) dispatches to `n`'s own
    handler, provided that remainder is not empty.
   */
  lemma UnderBareHead(s: State, g: GroupId, subcmds: map<string, SubCmd>, names: seq<string>, levels: int, n: string)
    requires WellFormed(s) && g < |s.groups| && levels != 0
    requires forall m :: m in names ==> m in subcmds
    requires NamedByKey(subcmds) && Ascending(names) && Uncached(s, g)
    requires n in names && Tail(n) != [] && Join(Tail(n)) != "" && Head(n) in names && Head(n) !in s.structure
    ensures Walk(Register(s, g, subcmds, names, levels), g, [Head(n), Join(Tail(n))], None) == Call(subcmds[n].func)
  {
    var i, j := HeadPosition(names, n);
    HeadNotBefore(names, i);
    AscendingDistinct(names);
    assert names[i] !in names[i + 1..j] && names[i] !in names[j + 1..] && n !in names[j + 1..];
    LaterMiss(subcmds, names, j);
    UnderBareHeadAt(s, g, subcmds, names, levels, i, j);
  }

  /** `UnderBareHead`, with the positions of the head and of the name given. */
  lemma UnderBareHeadAt(s: State, g: GroupId, subcmds: map<string, SubCmd>, names: seq<string>, levels: int, i: nat, j: nat)
    requires WellFormed(s) && g < |s.groups| && levels != 0
    requires forall m :: m in names ==> m in subcmds
    requires NamedByKey(subcmds) && Uncached(s, g)
    requires i < j < |names| && Sep !in names[i] && names[i] !in s.structure
    requires Tail(names[j]) != [] && Head(names[j]) == names[i] && Join(Tail(names[j])) != ""
    requires forall m :: m in names[..i] ==> Head(m) != names[i]
    requires names[i] !in names[i + 1..j] && names[i] !in names[j + 1..] && names[j] !in names[j + 1..]
    requires NoLaterClash(subcmds, names[j + 1..], names[i], Join(Tail(names[j])))
    ensures Walk(Register(s, g, subcmds, names, levels), g, [names[i], Join(Tail(names[j]))], None) == Call(subcmds[names[j]].func)
  {
    var k := j + 1;
    var sD, grp, idx := LeafRegistered(s, g, subcmds, names, levels, i, j, k);
    FinishAt(s, g, subcmds, names, levels, i, j, k, sD, grp, idx);
  }

  /** The registrations after `names[j]` keep the command line that reaches it. */
  lemma FinishAt(s: State, g: GroupId, subcmds: map<string, SubCmd>, names: seq<string>, levels: int, i: nat, j: nat, k: nat,
                 sD: State, grp: GroupId, idx: NodeId)
    requires WellFormed(s) && g < |s.groups| && levels != 0
    requires forall m :: m in names ==> m in subcmds
    requires NamedByKey(subcmds)
    requires i < j < |names| && Tail(names[j]) != [] && Head(names[j]) == names[i]
    requires k == j + 1 && names[i] !in names[k..]
    requires NoLaterClash(subcmds, names[k..], names[i], Join(Tail(names[j])))
    requires sD == Register(s, g, subcmds, names[..k], levels)
    requires LeafReady(sD, g, names[i], subcmds[names[i]].func, grp, Join(Tail(names[j])), idx, subcmds[names[j]])
    ensures Walk(Register(s, g, subcmds, names, levels), g, [names[i], Join(Tail(names[j]))], None) == Call(subcmds[names[j]].func)
  {
    AfterLeaf(sD, g, subcmds, names[k..], levels, names[i], subcmds[names[i]].func, grp, Join(Tail(names[j])), idx, subcmds[names[j]]);
    Transfer(s, g, subcmds, names, levels, k, sD, [names[i], Join(Tail(names[j]))], Call(subcmds[names[j]].func));
  }

  /** What dispatches after registering `names[..k]` and then `names[k..]` dispatches after registering `names`. */
  lemma Transfer(s: State, g: GroupId, subcmds: map<string, SubCmd>, names: seq<string>, levels: int, k: nat,
                 sD: State, words: seq<string>, d: Dispatch)
    requires WellFormed(s) && g < |s.groups|
    requires forall m :: m in names ==> m in subcmds
    requires k <= |names| && sD == Register(s, g, subcmds, names[..k], levels)
    requires Walk(Register(sD, g, subcmds, names[k..], levels), g, words, None) == d
    ensures Walk(Register(s, g, subcmds, names, levels), g, words, None) == d
  {
    RegisterSplit(s, g, subcmds, names, levels, k);
  }

  /** The registration loop depends on the level setting only through its truthiness. */
  lemma {:induction false} LevelsOnlyGate(s: State, g: GroupId, subcmds: map<string, SubCmd>, names: seq<string>, l1: int, l2: int)
    requires WellFormed(s) && g < |s.groups|
    requires forall n :: n in names ==> n in subcmds
    requires (l1 == 0) == (l2 == 0)
    ensures Register(s, g, subcmds, names, l1) == Register(s, g, subcmds, names, l2)
    decreases |names|
  {
    if names != [] {
      var s1 := Step(s, g, subcmds[names[0]], names[0], l1);
      assert s1 == Step(s, g, subcmds[names[0]], names[0], l2);
      LevelsOnlyGate(s1, g, subcmds, names[1..], l1, l2);
    }
  }

  // ---------------------------------------------------------------------------
  // A whole run of cmdline

  /**
    The tree after one run of `cmdline` starting from the arena `s`: the
    top-level parser and its group, then every command registered in sorted
    order. The top-level group is `|s.groups|`.
   */
  ghost function Built(s: State, description: string, version: string, subcmds: map<string, SubCmd>, levels: int): (r: State)
    requires WellFormed(s)
    ensures WellFormed(r) && |r.groups| > |s.groups|
  {
    SortListsKeys(subcmds.Keys);
    Register(Start(s, description, version), |s.groups|, subcmds, Sort(subcmds.Keys), levels)
  }

  /**
    With the level setting falsy, the top-level group lists every command
    once, under its full name and in sorted order, has no other child, and
    each command dispatches to its own handler; the cache is not touched.
   */
  lemma CmdlineFlat(s: State, description: string, version: string, subcmds: map<string, SubCmd>)
    requires WellFormed(s) && NamedByKey(subcmds)
    ensures var r := Built(s, description, version, subcmds, 0);
      && r.groups[|s.groups|].listing == Sort(subcmds.Keys)
      && (forall c :: c in r.groups[|s.groups|].choices <==> c in subcmds)
      && (forall n :: n in subcmds ==> Walk(r, |s.groups|, [n], None) == Call(subcmds[n].func))
      && r.structure == s.structure
  {
    var names := Sort(subcmds.Keys);
    SortListsKeys(subcmds.Keys);
    AscendingDistinct(names);
    var st := Start(s, description, version);
    var top := |s.groups|;
    FlatRegister(st, top, subcmds, names);
    var r := Register(st, top, subcmds, names, 0);
    forall n | n in subcmds
      ensures Walk(r, top, [n], None) == Call(subcmds[n].func)
    {
      LeadsDispatch(r, top, n, subcmds[n].func, None);
    }
  }

  /**
    With a truthy level setting, every command without a separator is a
    direct child of the top-level group that dispatches to its own handler;
    the cache keeps every entry it had and gains exactly the heads of the
    command names.
   */
  lemma CmdlineBare(s: State, description: string, version: string, subcmds: map<string, SubCmd>, levels: int)
    requires WellFormed(s) && NamedByKey(subcmds) && levels != 0
    ensures var r := Built(s, description, version, subcmds, levels);
      && (forall n :: n in subcmds && Sep !in n ==> Walk(r, |s.groups|, [n], None) == Call(subcmds[n].func))
      && (forall k :: k in s.structure ==> k in r.structure && r.structure[k] == s.structure[k])
      && (forall k :: k in r.structure <==> k in s.structure || exists n :: n in subcmds && Head(n) == k)
  {
    var names := Sort(subcmds.Keys);
    SortListsKeys(subcmds.Keys);
    AscendingDistinct(names);
    var st := Start(s, description, version);
    var top := |s.groups|;
    assert Uncached(st, top);
    var r := Register(st, top, subcmds, names, levels);
    forall n | n in subcmds && Sep !in n
      ensures Walk(r, top, [n], None) == Call(subcmds[n].func)
    {
      NestedBare(st, top, subcmds, names, levels, n);
      LeadsDispatch(r, top, n, subcmds[n].func, None);
    }
    RegisterKeepsCache(st, top, subcmds, names, levels);
    RegisterCacheKeys(st, top, subcmds, names, levels);
  }

  /**
    With a truthy level setting: when the head of an underscored command is
    itself a command and was not cached before the run, `head rest`
    dispatches to the underscored command's own handler, provided the
    remainder `rest` is not empty.
   */
  lemma CmdlineUnderCommandHead(s: State, description: string, version: string, subcmds: map<string, SubCmd>, levels: int, n: string)
    requires WellFormed(s) && NamedByKey(subcmds) && levels != 0
    requires n in subcmds && Tail(n) != [] && Join(Tail(n)) != "" && Head(n) in subcmds && Head(n) !in s.structure
    ensures Walk(Built(s, description, version, subcmds, levels), |s.groups|, [Head(n), Join(Tail(n))], None)
            == Call(subcmds[n].func)
  {
    var names := Sort(subcmds.Keys);
    SortListsKeys(subcmds.Keys);
    var st := Start(s, description, version);
    assert Uncached(st, |s.groups|);
    UnderBareHead(st, |s.groups|, subcmds, names, levels, n);
  }

  /**
    Registering an underscored name whose head is not cached synthesizes
    the head: a child of `g` with the placeholder handler, owning a fresh
    group cached under the head.
   */
  lemma SynthOpened(s: State, g: GroupId, sc: SubCmd, n: string, levels: int) returns (grp: GroupId)
    requires WellFormed(s) && g < |s.groups| && levels != 0 && Uncached(s, g)
    requires Tail(n) != [] && Head(n) !in s.structure
    ensures var r := Step(s, g, sc, n, levels);
      HeadAt(r, g, Head(n), HelpStub(Head(n)), grp) && Uncached(r, g)
  {
    ParseNewHead(s, g, sc, n, None);
    ParseFrame(s, g, sc, n);
    grp := |s.groups|;
  }

  /** The first position of a name with head `h`, given some position `p` of one. */
  lemma FirstWithHead(names: seq<string>, h: string, p: nat) returns (i: nat)
    requires p < |names| && Head(names[p]) == h
    ensures i <= p && Head(names[i]) == h
    ensures forall m :: m in names[..i] ==> Head(m) != h
  {
    i := 0;
    while Head(names[i]) != h
      invariant i <= p
      invariant forall l :: 0 <= l < i ==> Head(names[l]) != h
      decreases p - i
    {
      i := i + 1;
    }
  }

  /**
    Ascending registration reaches the first underscored name `names[i]`
    under the uncached head `h` and synthesizes `h` there.
   */
  lemma SynthRegistered(s: State, g: GroupId, subcmds: map<string, SubCmd>, names: seq<string>, levels: int, i: nat)
    returns (grp: GroupId)
    requires WellFormed(s) && g < |s.groups| && levels != 0
    requires forall m :: m in names ==> m in subcmds
    requires Uncached(s, g)
    requires i < |names| && Tail(names[i]) != [] && Head(names[i]) !in s.structure
    requires forall m :: m in names[..i] ==> Head(m) != Head(names[i])
    ensures var r := Register(s, g, subcmds, names[..i + 1], levels);
      HeadAt(r, g, Head(names[i]), HelpStub(Head(names[i])), grp) && Uncached(r, g)
  {
    var sA := Register(s, g, subcmds, names[..i], levels);
    RegisterKeepsCache(s, g, subcmds, names[..i], levels);
    RegisterCacheKeys(s, g, subcmds, names[..i], levels);
    assert Head(names[i]) !in sA.structure;
    RegisterSnoc(s, g, subcmds, names, levels, i, i + 1);
    grp := SynthOpened(sA, g, subcmds[names[i]], names[i], levels);
  }

  /**
    After registering up to the underscored name `names[j]`, whose head `h`
    is no command and was first met at `names[i]`, the head synthesized
    there still owns its group, and that group maps the remainder of
    `names[j]` to `names[j]`'s own parser.
   */
  lemma SynthLeafRegistered(s: State, g: GroupId, subcmds: map<string, SubCmd>, names: seq<string>, levels: int, i: nat, j: nat, k: nat)
    returns (sD: State, grp: GroupId, idx: NodeId)
    requires WellFormed(s) && g < |s.groups| && levels != 0
    requires forall m :: m in names ==> m in subcmds
    requires NamedByKey(subcmds) && Uncached(s, g)
    requires i < j < |names| && Tail(names[i]) != [] && Head(names[i]) !in s.structure && Head(names[i]) !in names
    requires forall m :: m in names[..i] ==> Head(m) != Head(names[i])
    requires Tail(names[j]) != [] && Head(names[j]) == Head(names[i]) && Join(Tail(names[j])) != ""
    requires k == j + 1
    ensures sD == Register(s, g, subcmds, names[..k], levels)
    ensures LeafReady(sD, g, Head(names[i]), HelpStub(Head(names[i])), grp, Join(Tail(names[j])), idx, subcmds[names[j]])
  {
    var h, n := Head(names[i]), names[j];
    grp := SynthRegistered(s, g, subcmds, names, levels, i);
    var sB := Register(s, g, subcmds, names[..i + 1], levels);
    RegisterSplit(s, g, subcmds, names[..j], levels, i + 1);
    assert names[..j][..i + 1] == names[..i + 1];
    var between := names[..j][i + 1..];
    assert between == names[i + 1..j];
    HeadKept(sB, g, subcmds, between, levels, h, HelpStub(h), grp);
    var sC := Register(s, g, subcmds, names[..j], levels);
    RegisterSnoc(s, g, subcmds, names, levels, j, k);
    LeafAdded(sC, g, subcmds[n], n, levels, h, HelpStub(h), grp);
    idx := |sC.nodes|;
    sD := Step(sC, g, subcmds[n], n, levels);
  }

  /**
    With a truthy level setting: when the head of an underscored command is
    no command and was not cached before the run, the head is synthesized
    by the first command under it, whose own `head rest` reaches the
    placeholder (see `Findings.LoneUnderscoredCommand`). Every later command
    under that head, with a non-empty remainder, is added to the cached
    group with its own entry, so its `head rest` dispatches to its own
    handler.
   */
  lemma CmdlineUnderSynthesizedHead(s: State, description: string, version: string, subcmds: map<string, SubCmd>, levels: int,
                                    n: string, m: string)
    requires WellFormed(s) && NamedByKey(subcmds) && levels != 0
    requires n in subcmds && Tail(n) != [] && Join(Tail(n)) != ""
    requires m in subcmds && Head(m) == Head(n) && Below(m, n)
    requires Head(n) !in subcmds && Head(n) !in s.structure
    ensures Walk(Built(s, description, version, subcmds, levels), |s.groups|, [Head(n), Join(Tail(n))], None)
            == Call(subcmds[n].func)
  {
    var names := Sort(subcmds.Keys);
    var h := Head(n);
    var st := Start(s, description, version);
    var top := |s.groups|;
    var pm, j := Positions(subcmds, names, m, n);
    var i := FirstWithHead(names, h, pm);
    HeadTail(names[i]);
    assert Uncached(st, top);
    var k := j + 1;
    var sD, grp, idx := SynthLeafRegistered(st, top, subcmds, names, levels, i, j, k);
    assert h !in names[k..];
    AfterLeaf(sD, top, subcmds, names[k..], levels, h, HelpStub(h), grp, Join(Tail(n)), idx, subcmds[n]);
    Transfer(st, top, subcmds, names, levels, k, sD, [h, Join(Tail(n))], Call(subcmds[n].func));
  }

  /**
    In `sorted(keys)`, a key `m` that sorts below `n` comes at an earlier
    position, and no later name clashes with `n`'s remainder.
   */
  lemma Positions(subcmds: map<string, SubCmd>, names: seq<string>, m: string, n: string) returns (pm: nat, j: nat)
    requires NamedByKey(subcmds) && names == Sort(subcmds.Keys)
    requires n in subcmds && m in subcmds && Below(m, n)
    requires Tail(n) != [] && Join(Tail(n)) != ""
    ensures pm < j < |names| && names[pm] == m && names[j] == n
    ensures forall x :: x in names <==> x in subcmds
    ensures NoLaterClash(subcmds, names[j + 1..], Head(n), Join(Tail(n)))
  {
    SortListsKeys(subcmds.Keys);
    pm :| 0 <= pm < |names| && names[pm] == m;
    j :| 0 <= j < |names| && names[j] == n;
    if j <= pm {
      BelowIrreflexive(n);
      if j < pm {
        BelowTotal(m, n);
      }
    }
    LaterMiss(subcmds, names, j);
  }

  /**
    In `sorted(keys)`, the least command `n` under the head `h`, which is no
    command: no name before it has head `h`, and no name after it clashes
    with its remainder.
   */
  lemma FirstPosition(subcmds: map<string, SubCmd>, names: seq<string>, n: string) returns (j: nat)
    requires NamedByKey(subcmds) && names == Sort(subcmds.Keys)
    requires n in subcmds && Tail(n) != [] && Join(Tail(n)) != ""
    requires forall m :: m in subcmds && m != n && Head(m) == Head(n) ==> Below(n, m)
    ensures j < |names| && names[j] == n
    ensures forall x :: x in names <==> x in subcmds
    ensures forall m :: m in names[..j] ==> Head(m) != Head(n)
    ensures NoLaterClash(subcmds, names[j + 1..], Head(n), Join(Tail(n)))
  {
    SortListsKeys(subcmds.Keys);
    j :| 0 <= j < |names| && names[j] == n;
    forall m | m in names[..j]
      ensures Head(m) != Head(n)
    {
      var l :| 0 <= l < j && names[l] == m;
      assert Below(m, n);
      BelowIrreflexive(n);
      BelowTotal(m, n);
    }
    LaterMiss(subcmds, names, j);
  }

  /**
    Registering up to the first command `names[j]` under the uncached head
    `h` synthesizes `h`, and the remainder of `names[j]` becomes a child of
    `h`'s group carrying the placeholder entry, not `names[j]`'s own.
   */
  lemma SynthFirstLeaf(s: State, g: GroupId, subcmds: map<string, SubCmd>, names: seq<string>, levels: int, j: nat, k: nat)
    returns (sD: State, grp: GroupId, idx: NodeId)
    requires WellFormed(s) && g < |s.groups| && levels != 0
    requires forall m :: m in names ==> m in subcmds
    requires Uncached(s, g)
    requires j < |names| && Tail(names[j]) != [] && Join(Tail(names[j])) != "" && Head(names[j]) !in s.structure
    requires forall m :: m in names[..j] ==> Head(m) != Head(names[j])
    requires k == j + 1
    ensures sD == Register(s, g, subcmds, names[..k], levels)
    ensures LeafReady(sD, g, Head(names[j]), HelpStub(Head(names[j])), grp, Join(Tail(names[j])), idx, Dummy(Head(names[j])))
  {
    var h, n := Head(names[j]), names[j];
    var sA := Register(s, g, subcmds, names[..j], levels);
    RegisterKeepsCache(s, g, subcmds, names[..j], levels);
    RegisterCacheKeys(s, g, subcmds, names[..j], levels);
    assert h !in sA.structure;
    RegisterSnoc(s, g, subcmds, names, levels, j, k);
    grp := SynthOpened(sA, g, subcmds[n], n, levels);
    ParseNewHead(sA, g, subcmds[n], n, None);
    sD := Step(sA, g, subcmds[n], n, levels);
    idx := |sA.nodes| + 1;
  }

  /**
    With a truthy level setting, as written: when the head of an underscored
    command is no command and was not cached before the run, the command
    that sorts first under that head is reached by `head rest` only as the
    head's placeholder, never as its own handler (its remainder being
    non-empty).
   */
  lemma CmdlineFirstUnderSynthesizedHead(s: State, description: string, version: string, subcmds: map<string, SubCmd>,
                                         levels: int, n: string)
    requires WellFormed(s) && NamedByKey(subcmds) && levels != 0
    requires n in subcmds && Tail(n) != [] && Join(Tail(n)) != ""
    requires Head(n) !in subcmds && Head(n) !in s.structure
    requires forall m :: m in subcmds && m != n && Head(m) == Head(n) ==> Below(n, m)
    ensures Walk(Built(s, description, version, subcmds, levels), |s.groups|, [Head(n), Join(Tail(n))], None)
            == Call(HelpStub(Head(n)))
  {
    var names := Sort(subcmds.Keys);
    var h := Head(n);
    var st := Start(s, description, version);
    var top := |s.groups|;
    var j := FirstPosition(subcmds, names, n);
    assert Uncached(st, top);
    var k := j + 1;
    var sD, grp, idx := SynthFirstLeaf(st, top, subcmds, names, levels, j, k);
    assert h !in names[k..];
    AfterLeaf(sD, top, subcmds, names[k..], levels, h, HelpStub(h), grp, Join(Tail(n)), idx, Dummy(h));
    Transfer(st, top, subcmds, names, levels, k, sD, [h, Join(Tail(n))], Call(HelpStub(h)));
  }

  /**
    A run depends on the level setting only through its truthiness: any
    non-zero setting builds the same single-split tree.
   */
  lemma CmdlineLevelsGate(s: State, description: string, version: string, subcmds: map<string, SubCmd>, l1: int, l2: int)
    requires WellFormed(s) && (l1 == 0) == (l2 == 0)
    ensures Built(s, description, version, subcmds, l1) == Built(s, description, version, subcmds, l2)
  {
    SortListsKeys(subcmds.Keys);
    LevelsOnlyGate(Start(s, description, version), |s.groups|, subcmds, Sort(subcmds.Keys), l1, l2);
  }
}
