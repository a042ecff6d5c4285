/**
  The string operations the command builder relies on: `str.split("_")`,
  `"_".join(...)` and the ordering that `sorted()` uses on command names
  (Python compares strings code point by code point, a proper prefix first).
 */
module Names {

  /** The separator between the segments of a hierarchical command name. */
  const Sep: char := '_'

  /** `s.split("_")`: the maximal pieces of `s` between separators, empty pieces included. */
  function Split(s: string): (parts: seq<string>)
    ensures |parts| >= 1
  {
    if s == [] then [""]
    else
      var rest := Split(s[1..]);
      if s[0] == Sep then [""] + rest
      else [[s[0]] + rest[0]] + rest[1..]
  }

  /** `"_".join(parts)`. */
  function Join(parts: seq<string>): string
  {
    if |parts| == 0 then ""
    else if |parts| == 1 then parts[0]
    else parts[0] + [Sep] + Join(parts[1..])
  }

  /** The first segment, `head` in `head, *tail = name.split("_")`. */
  function Head(name: string): string
  {
    Split(name)[0]
  }

  /** The remaining segments, `tail` in `head, *tail = name.split("_")`. */
  function Tail(name: string): seq<string>
  {
    Split(name)[1..]
  }

  lemma {:induction false} JoinPrependChar(c: char, p: string, ps: seq<string>)
    ensures Join([[c] + p] + ps) == [c] + Join([p] + ps)
  {
    if ps != [] {
      assert ([[c] + p] + ps)[1..] == ps;
      assert ([p] + ps)[1..] == ps;
    }
  }

  /** Joining the pieces of a split with the separator gives back the string. */
  lemma {:induction false} JoinSplit(s: string)
    ensures Join(Split(s)) == s
  {
    if s != [] {
      var rest := Split(s[1..]);
      JoinSplit(s[1..]);
      if s[0] == Sep {
        assert ([""] + rest)[1..] == rest;
        assert Join([""] + rest) == "" + [Sep] + Join(rest);
      } else {
        assert [rest[0]] + rest[1..] == rest;
        JoinPrependChar(s[0], rest[0], rest[1..]);
      }
    }
  }

  /** No piece of a split contains the separator. */
  lemma {:induction false} SplitPiecesClean(s: string)
    ensures forall i :: 0 <= i < |Split(s)| ==> Sep !in Split(s)[i]
  {
    if s != [] {
      SplitPiecesClean(s[1..]);
      var rest := Split(s[1..]);
      if s[0] != Sep {
        assert Sep !in rest[0];
        assert Sep !in [s[0]] + rest[0];
      }
    }
  }

  /** A split has a single piece exactly when the string holds no separator. */
  lemma {:induction false} SplitSingle(s: string)
    ensures |Split(s)| == 1 <==> Sep !in s
    ensures Sep !in s ==> Split(s) == [s]
  {
    if s != [] {
      SplitSingle(s[1..]);
      if Sep !in s {
        assert Sep !in s[1..];
        assert s == [s[0]] + s[1..];
      }
    }
  }

  /**
    The head/tail round trip used when a name is split: the head holds no
    separator and, when a separator was present, head, separator and the
    joined tail spell the name again. Without one, the head is the name.
   */
  lemma HeadTail(name: string)
    ensures Sep !in Head(name)
    ensures Tail(name) == [] <==> Sep !in name
    ensures Tail(name) == [] ==> Head(name) == name
    ensures Tail(name) != [] ==> Head(name) + [Sep] + Join(Tail(name)) == name
  {
    SplitPiecesClean(name);
    SplitSingle(name);
    JoinSplit(name);
    var parts := Split(name);
    if |parts| > 1 {
      assert Join(parts) == parts[0] + [Sep] + Join(parts[1..]);
    }
  }

  /** The joined tail is empty only for a name that is its head followed by one separator. */
  lemma EmptyRemainder(name: string)
    requires Tail(name) != [] && Join(Tail(name)) == ""
    ensures name == Head(name) + [Sep]
    ensures name[|name| - 1] == Sep
  {
    HeadTail(name);
  }

  /** Python's `<` on `str`: the first differing code point decides; a proper prefix is smaller. */
  predicate Below(a: string, b: string)
  {
    if a == [] then b != []
    else b != [] && (a[0] < b[0] || (a[0] == b[0] && Below(a[1..], b[1..])))
  }

  lemma {:induction false} BelowIrreflexive(a: string)
    ensures !Below(a, a)
  {
    if a != [] {
      BelowIrreflexive(a[1..]);
    }
  }

  lemma {:induction false} BelowTransitive(a: string, b: string, c: string)
    requires Below(a, b) && Below(b, c)
    ensures Below(a, c)
  {
    if a != [] && b != [] && c != [] && a[0] == b[0] == c[0] {
      BelowTransitive(a[1..], b[1..], c[1..]);
    }
  }

  /** Distinct strings are always ordered one way, and never both ways. */
  lemma {:induction false} BelowTotal(a: string, b: string)
    ensures a != b ==> Below(a, b) || Below(b, a)
    ensures !(Below(a, b) && Below(b, a))
  {
    if a != [] && b != [] && a[0] == b[0] {
      BelowTotal(a[1..], b[1..]);
      if a != b {
        assert a == [a[0]] + a[1..] && b == [b[0]] + b[1..];
      }
    }
  }

  /** A proper prefix sorts before every extension of it. */
  lemma {:induction false} PrefixBelow(a: string, rest: string)
    requires rest != []
    ensures Below(a, a + rest)
  {
    if a != [] {
      assert (a + rest)[1..] == a[1..] + rest;
      PrefixBelow(a[1..], rest);
    }
  }

  /** A bare name sorts before every underscored name that extends it. */
  lemma ExtensionAfter(name: string)
    requires Tail(name) != []
    ensures Below(Head(name), name)
  {
    HeadTail(name);
    PrefixBelow(Head(name), [Sep] + Join(Tail(name)));
    assert Head(name) + ([Sep] + Join(Tail(name))) == name;
  }

  /** `m` is the smallest element of `ks`. */
  predicate IsLeast(m: string, ks: set<string>)
  {
    m in ks && forall x | x in ks && x != m :: Below(m, x)
  }

  lemma {:induction false} LeastExists(ks: set<string>)
    requires ks != {}
    ensures exists m :: IsLeast(m, ks)
    decreases |ks|
  {
    var x :| x in ks;
    if ks != {x} {
      var rest := ks - {x};
      LeastExists(rest);
      var m :| IsLeast(m, rest);
      BelowTotal(m, x);
      if Below(m, x) {
        assert IsLeast(m, ks);
      } else {
        forall y | y in ks && y != x
          ensures Below(x, y)
        {
          if y != m {
            BelowTransitive(x, m, y);
          }
        }
        assert IsLeast(x, ks);
      }
    } else {
      assert IsLeast(x, ks);
    }
  }

  lemma LeastUnique(m: string, m': string, ks: set<string>)
    requires IsLeast(m, ks) && IsLeast(m', ks)
    ensures m == m'
  {
    if m != m' {
      BelowTotal(m, m');
    }
  }

  /** `sorted(ks)`: the elements of `ks`, smallest first. */
  ghost function Sort(ks: set<string>): seq<string>
    decreases |ks|
  {
    if ks == {} then []
    else
      LeastExists(ks);
      var m :| IsLeast(m, ks);
      [m] + Sort(ks - {m})
  }

  /** Sorting a non-empty set puts its least element first. */
  lemma SortUnfold(ks: set<string>, m: string)
    requires IsLeast(m, ks)
    ensures Sort(ks) == [m] + Sort(ks - {m})
  {
    LeastExists(ks);
    var m' :| IsLeast(m', ks) && Sort(ks) == [m'] + Sort(ks - {m'});
    LeastUnique(m, m', ks);
  }

  /** The names are in strictly ascending order. */
  ghost predicate Ascending(names: seq<string>)
  {
    forall i, j :: 0 <= i < j < |names| ==> Below(names[i], names[j])
  }

  /** The sorted sequence lists every key once, in strictly ascending order. */
  lemma {:induction false} SortListsKeys(ks: set<string>)
    ensures |Sort(ks)| == |ks|
    ensures forall x :: x in Sort(ks) <==> x in ks
    ensures Ascending(Sort(ks))
    decreases |ks|
  {
    if ks != {} {
      LeastExists(ks);
      var m :| IsLeast(m, ks);
      SortUnfold(ks, m);
      SortListsKeys(ks - {m});
      var s := Sort(ks);
      forall i, j | 0 <= i < j < |s|
        ensures Below(s[i], s[j])
      {
        if i == 0 {
          assert s[j] in ks - {m};
        } else {
          assert s[i] == Sort(ks - {m})[i - 1] && s[j] == Sort(ks - {m})[j - 1];
        }
      }
    }
  }

  /** No name occurs twice. */
  ghost predicate Distinct(names: seq<string>)
  {
    forall i, j :: 0 <= i < j < |names| ==> names[i] != names[j]
  }

  /** An ascending sequence holds no name twice. */
  lemma AscendingDistinct(names: seq<string>)
    requires Ascending(names)
    ensures Distinct(names)
  {
    forall i, j | 0 <= i < j < |names|
      ensures names[i] != names[j]
    {
      BelowIrreflexive(names[i]);
    }
  }

  /** `sorted(ks)`, computed by taking the smallest remaining key each time. */
  method SortedNames(ks: set<string>) returns (names: seq<string>)
    ensures names == Sort(ks)
  {
    names := [];
    var rest := ks;
    while rest != {}
      invariant names + Sort(rest) == Sort(ks)
      decreases |rest|
    {
      LeastExists(rest);
      var m :| IsLeast(m, rest);
      SortUnfold(rest, m);
      names := names + [m];
      rest := rest - {m};
    }
  }
}
