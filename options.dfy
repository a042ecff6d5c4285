/**
  The option decorators: `option(*args, **kwds)` attaches one argparse option
  declaration to a handler function, and `option_group(*options)` bundles
  several such decorators into one. A handler is a Python function object;
  its `options` attribute is absent until the first option is attached.
 */
module Options {
  import opened Wrappers

  /** One `(args, kwds)` pair: the flag tokens and the keyword attributes forwarded to argparse. */
  datatype OptionDecl = OptionDecl(flags: seq<string>, attrs: map<string, string>)

  /** A function object bound in a command class body. */
  class Func {
    /** `__doc__`, treated as an opaque string. */
    const doc: string
    /** The `options` attribute: `None` while the function has none. */
    var options: Option<seq<OptionDecl>>

    constructor (doc: string)
      ensures this.doc == doc && options == None
    {
      this.doc := doc;
      options := None;
    }
  }

  /** A decorator built by `option` (`Opt`) or by `option_group` (`OptGroup`, applying its members in order). */
  datatype Decorator = Opt(decl: OptionDecl) | OptGroup(members: seq<Decorator>)

  /** `option(*args, **kwds)`; `arg` is the same function. */
  function MakeOption(flags: seq<string>, attrs: map<string, string>): (d: Decorator)
    ensures Decls(d) == [OptionDecl(flags, attrs)]
  {
    Opt(OptionDecl(flags, attrs))
  }

  /** `option_group(*options)`. */
  function MakeGroup(members: seq<Decorator>): (d: Decorator)
    ensures members == [] ==> Decls(d) == []
    ensures members != [] ==> Decls(d) == Decls(members[0]) + Decls(MakeGroup(members[1..]))
  {
    OptGroup(members)
  }

  /** The declarations a decorator appends, in the order it appends them. */
  function Decls(d: Decorator): seq<OptionDecl>
    decreases d, 1
  {
    match d
    case Opt(decl) => [decl]
    case OptGroup(members) => DeclsOf(members)
  }

  function DeclsOf(ds: seq<Decorator>): seq<OptionDecl>
    decreases ds, 0
  {
    if ds == [] then [] else Decls(ds[0]) + DeclsOf(ds[1..])
  }

  /** The declarations present, with an absent attribute read as the empty list. */
  function Present(opts: Option<seq<OptionDecl>>): seq<OptionDecl>
  {
    if opts.Some? then opts.value else []
  }

  /**
    The `options` attribute after `added` has been appended to `opts` one by
    one: nothing appended leaves it as it was (possibly still absent);
    otherwise it is present and ends with `added`.
   */
  function Extended(opts: Option<seq<OptionDecl>>, added: seq<OptionDecl>): Option<seq<OptionDecl>>
  {
    if added == [] then opts else Some(Present(opts) + added)
  }

  /** Applying the decorator `d` to `f`, returning `f` itself. */
  method Apply(d: Decorator, f: Func) returns (r: Func)
    modifies f
    ensures r == f
    ensures f.options == Extended(old(f.options), Decls(d))
    decreases d
  {
    match d
    case Opt(decl) =>
      if f.options.Some? {
        f.options := Some(f.options.value + [decl]);
      } else {
        f.options := Some([decl]);
        assert [] + [decl] == [decl];
      }
      r := f;
    case OptGroup(members) =>
      r := f;
      var i := 0;
      while i < |members|
        invariant 0 <= i <= |members|
        invariant r == f
        invariant f.options == Extended(old(f.options), DeclsOf(members[..i]))
      {
        assert members[i] in members;
        r := Apply(members[i], r);
        DeclsOfSnoc(members[..i], members[i]);
        assert members[..i + 1] == members[..i] + [members[i]];
        ExtendedTwice(old(f.options), DeclsOf(members[..i]), Decls(members[i]));
        i := i + 1;
      }
      assert members[..|members|] == members;
      assert Decls(d) == DeclsOf(members);
  }

  /** Appending in two rounds is appending the concatenation once. */
  lemma ExtendedTwice(opts: Option<seq<OptionDecl>>, a: seq<OptionDecl>, b: seq<OptionDecl>)
    ensures Extended(Extended(opts, a), b) == Extended(opts, a + b)
  {
    if a == [] {
      assert a + b == b;
    } else if b != [] {
      assert |a + b| > 0;
      assert Present(opts) + a + b == Present(opts) + (a + b);
    } else {
      assert a + b == a;
    }
  }

  lemma {:induction false} DeclsOfSnoc(ds: seq<Decorator>, d: Decorator)
    ensures DeclsOf(ds + [d]) == DeclsOf(ds) + Decls(d)
  {
    if ds != [] {
      assert (ds + [d])[1..] == ds[1..] + [d];
      DeclsOfSnoc(ds[1..], d);
    } else {
      assert [d][1..] == [];
    }
  }

  /** A group of groups appends what its parts append, part after part. */
  lemma {:induction false} GroupConcat(a: seq<Decorator>, b: seq<Decorator>)
    ensures Decls(OptGroup(a + b)) == Decls(OptGroup(a)) + Decls(OptGroup(b))
  {
    if a != [] {
      assert (a + b)[0] == a[0] && (a + b)[1..] == a[1..] + b;
      GroupConcat(a[1..], b);
    } else {
      assert a + b == b;
    }
  }

  /**
    `option_group(o1, ..., on)` of plain options appends exactly their
    declarations, in the order the options were given.
   */
  lemma {:induction false} GroupInOrder(os: seq<Decorator>)
    requires forall i :: 0 <= i < |os| ==> os[i].Opt?
    ensures |Decls(OptGroup(os))| == |os|
    ensures forall i :: 0 <= i < |os| ==> Decls(OptGroup(os))[i] == os[i].decl
  {
    if os != [] {
      GroupInOrder(os[1..]);
      assert Decls(os[0]) == [os[0].decl];
      assert DeclsOf(os) == Decls(os[0]) + DeclsOf(os[1..]);
      assert Decls(OptGroup(os[1..])) == DeclsOf(os[1..]);
    }
  }

  /**
    A group made of plain options, `option_group(option(*d1), ..., option(*dn))`,
    appends exactly `d1, ..., dn`, in that order.
   */
  lemma GroupOfOptions(ds: seq<OptionDecl>)
    ensures Decls(MakeGroup(seq(|ds|, i requires 0 <= i < |ds| => MakeOption(ds[i].flags, ds[i].attrs)))) == ds
  {
    var os := seq(|ds|, i requires 0 <= i < |ds| => MakeOption(ds[i].flags, ds[i].attrs));
    GroupInOrder(os);
  }

  /**
    Stacked decorators run innermost first: decorating `f` with `inner`
    and the result with `outer` (`@outer` written above `@inner`) lists the
    innermost declarations first, after any `f` already had.
   */
  method ApplyStacked(inner: Decorator, outer: Decorator, f: Func) returns (r: Func)
    modifies f
    ensures r == f
    ensures f.options == Extended(old(f.options), Decls(inner) + Decls(outer))
  {
    r := Apply(inner, f);
    r := Apply(outer, r);
    ExtendedTwice(old(f.options), Decls(inner), Decls(outer));
  }

  /**
    `option_group(d1, d2)` appends what stacking `d1` innermost and `d2`
    above it appends, and an empty `option_group()` changes nothing.
   */
  lemma GroupIsStacking(opts: Option<seq<OptionDecl>>, d1: Decorator, d2: Decorator)
    ensures Extended(opts, Decls(OptGroup([d1, d2]))) == Extended(Extended(opts, Decls(d1)), Decls(d2))
    ensures Extended(opts, Decls(OptGroup([]))) == opts
  {
    assert DeclsOf([d1, d2]) == Decls(d1) + DeclsOf([d2]);
    assert DeclsOf([d2]) == Decls(d2) + DeclsOf([]);
    assert Decls(d1) + (Decls(d2) + []) == Decls(d1) + Decls(d2);
    ExtendedTwice(opts, Decls(d1), Decls(d2));
  }
}
