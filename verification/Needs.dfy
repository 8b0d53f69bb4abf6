/** Expanding NEEDS directives (expand_needs in src/compiler/mod.rs). */
module Needs {
  import opened Common

  /** A directive, or any other item of a program. */
  datatype Item = Directive(path: string) | Own(id: int)

  type Base = Option<string>

  /** The file system: paths are joined to the directory of the including file, have a canonical key
      and a parent directory, and are read and parsed, which may fail. */
  datatype Files = Files(join: (Base, string) -> string, key: string -> string, parent: string -> Base,
                         read: string -> Option<seq<Item>>)

  /** Only finitely many keys: the measure of every expansion is the set of files not yet included. */
  ghost predicate Finite(fs: Files, keys: set<string>) {
    forall full :: fs.key(full) in keys
  }

  /** The items an expansion yields, or None where a file cannot be read; the keys included by then; and
      the files read, in the order of their reading. */
  datatype Expansion = Expansion(out: Option<seq<Item>>, included: set<string>, visited: seq<string>)

  // ----- the recursion of the source -----

  ghost function Expand(fs: Files, keys: set<string>, items: seq<Item>, base: Base,
                        included: set<string>): (r: Expansion)
    requires Finite(fs, keys)
    ensures included <= r.included
    decreases keys - included, |items|
  {
    if items == [] then Expansion(Some([]), included, [])
    else
      match items[0]
      case Own(_) => Prefixed([items[0]], Expand(fs, keys, items[1..], base, included))
      case Directive(path) =>
        var full := fs.join(base, path);
        var key := fs.key(full);
        if key in included then Expand(fs, keys, items[1..], base, included)
        else
          match fs.read(full)
          case None => Expansion(None, included + {key}, [full])
          case Some(sub) =>
            var r1 := Expand(fs, keys, sub, fs.parent(full), included + {key});
            match r1.out
            case None => Expansion(None, r1.included, [full] + r1.visited)
            case Some(out1) =>
              Visited([full] + r1.visited, Prefixed(out1, Expand(fs, keys, items[1..], base, r1.included)))
  }

  function Prefixed(before: seq<Item>, r: Expansion): Expansion {
    match r.out
    case None => r
    case Some(out) => r.(out := Some(before + out))
  }

  function Visited(before: seq<string>, r: Expansion): Expansion {
    r.(visited := before + r.visited)
  }

  /** The set of included keys lasts for the session and is updated in place. */
  class CompileContext {
    var included: set<string>

    constructor ()
      ensures included == {}
    {
      included := {};
    }
  }

  /** The imperative form: a loop over the items that appends to `out`, and calls itself for each file
      not yet included. */
  method ExpandNeeds(fs: Files, ghost keys: set<string>, items: seq<Item>, ctx: CompileContext, base: Base)
    returns (r: Option<seq<Item>>, ghost visited: seq<string>)
    requires Finite(fs, keys)
    modifies ctx
    ensures Expansion(r, ctx.included, visited) == Expand(fs, keys, items, base, old(ctx.included))
    decreases keys - ctx.included
  {
    var out: seq<Item> := [];
    visited := [];
    assert items[0..] == items;
    PrefixedNothing(Expand(fs, keys, items, base, ctx.included));
    for i := 0 to |items|
      invariant old(ctx.included) <= ctx.included
      invariant Expand(fs, keys, items, base, old(ctx.included))
             == Visited(visited, Prefixed(out, Expand(fs, keys, items[i..], base, ctx.included)))
    {
      assert items[i..][1..] == items[i + 1..];
      ghost var rest := Expand(fs, keys, items[i..], base, ctx.included);
      match items[i]
      case Own(_) =>
        PrefixedTwice(out, [items[i]], Expand(fs, keys, items[i + 1..], base, ctx.included));
        out := out + [items[i]];
      case Directive(path) =>
        var full := fs.join(base, path);
        var key := fs.key(full);
        if key !in ctx.included {
          ghost var before := ctx.included;
          ctx.included := ctx.included + {key};
          assert keys - ctx.included < keys - before by {
            assert key in keys - before && key !in keys - ctx.included;
          }
          match fs.read(full) {
            case None =>
              visited := visited + [full];
              return None, visited;
            case Some(sub) =>
              ghost var was := ctx.included;
              var r1, v1 := ExpandNeeds(fs, keys, sub, ctx, fs.parent(full));
              match r1 {
                case None =>
                  visited := visited + ([full] + v1);
                  return None, visited;
                case Some(out1) =>
                  var tail := Expand(fs, keys, items[i + 1..], base, ctx.included);
                  PrefixedTwice(out, out1, tail);
                  VisitedTwice(visited, [full] + v1, out, Prefixed(out1, tail));
                  visited := visited + ([full] + v1);
                  out := out + out1;
              }
          }
        }
    }
    assert items[|items|..] == [];
    assert out + [] == out && visited + [] == visited;
    r := Some(out);
  }

  lemma PrefixedNothing(r: Expansion)
    ensures Visited([], Prefixed([], r)) == r
  {
    assert [] + r.visited == r.visited;
    match r.out
    case None =>
    case Some(out) => assert [] + out == out;
  }

  lemma PrefixedTwice(a: seq<Item>, b: seq<Item>, r: Expansion)
    ensures Prefixed(a, Prefixed(b, r)) == Prefixed(a + b, r)
  {
    match r.out
    case None =>
    case Some(out) => assert a + (b + out) == a + b + out;
  }

  lemma VisitedTwice(a: seq<string>, b: seq<string>, out: seq<Item>, r: Expansion)
    ensures Visited(a, Prefixed(out, Visited(b, r))) == Visited(a + b, Prefixed(out, r))
  {
    assert a + (b + r.visited) == a + b + r.visited;
  }

  // ----- splicing -----

  /** An item together with the directory its path would be relative to. */
  datatype Placed = Placed(item: Item, base: Base)

  function Place(items: seq<Item>, base: Base): seq<Placed> {
    seq(|items|, i requires 0 <= i < |items| => Placed(items[i], base))
  }

  /** What NEEDS means: read from left to right, the first directive for a file is replaced by the text of
      that file, and later ones by nothing. */
  ghost function Splice(fs: Files, keys: set<string>, work: seq<Placed>, included: set<string>): Expansion
    requires Finite(fs, keys)
    decreases keys - included, |work|
  {
    if work == [] then Expansion(Some([]), included, [])
    else
      match work[0].item
      case Own(_) => Prefixed([work[0].item], Splice(fs, keys, work[1..], included))
      case Directive(path) =>
        var full := fs.join(work[0].base, path);
        var key := fs.key(full);
        if key in included then Splice(fs, keys, work[1..], included)
        else
          match fs.read(full)
          case None => Expansion(None, included + {key}, [full])
          case Some(sub) =>
            Visited([full], Splice(fs, keys, Place(sub, fs.parent(full)) + work[1..], included + {key}))
  }

  /** One expansion followed by the splicing of what comes after. */
  ghost function Followed(fs: Files, keys: set<string>, r: Expansion, work: seq<Placed>): Expansion
    requires Finite(fs, keys)
  {
    match r.out
    case None => r
    case Some(out) => Visited(r.visited, Prefixed(out, Splice(fs, keys, work, r.included)))
  }

  lemma FollowedPrefixed(fs: Files, keys: set<string>, before: seq<Item>, r: Expansion, work: seq<Placed>)
    requires Finite(fs, keys)
    ensures Followed(fs, keys, Prefixed(before, r), work) == Prefixed(before, Followed(fs, keys, r, work))
  {
    match r.out
    case None =>
    case Some(out) => PrefixedTwice(before, out, Splice(fs, keys, work, r.included));
  }

  lemma FollowedVisited(fs: Files, keys: set<string>, before: seq<string>, r: Expansion, work: seq<Placed>)
    requires Finite(fs, keys)
    ensures Followed(fs, keys, Visited(before, r), work) == Visited(before, Followed(fs, keys, r, work))
  {
    match r.out
    case None =>
    case Some(out) =>
      assert before + (r.visited + Splice(fs, keys, work, r.included).visited)
          == before + r.visited + Splice(fs, keys, work, r.included).visited;
  }

  lemma {:induction false} SpliceAfter(fs: Files, keys: set<string>, items: seq<Item>, base: Base,
                                       included: set<string>,
                                       work: seq<Placed>)
    requires Finite(fs, keys)
    ensures Splice(fs, keys, Place(items, base) + work, included)
         == Followed(fs, keys, Expand(fs, keys, items, base, included), work)
    decreases keys - included, |items|
  {
    if items == [] {
      assert Place(items, base) + work == work;
      var s := Splice(fs, keys, work, included);
      assert [] + s.visited == s.visited;
      match s.out
      case None =>
      case Some(out) => assert [] + out == out;
    } else {
      var all := Place(items, base) + work;
      assert all[0] == Placed(items[0], base);
      assert all[1..] == Place(items[1..], base) + work;
      match items[0]
      case Own(_) =>
        SpliceAfter(fs, keys, items[1..], base, included, work);
        FollowedPrefixed(fs, keys, [items[0]], Expand(fs, keys, items[1..], base, included), work);
      case Directive(path) =>
        var full := fs.join(base, path);
        var key := fs.key(full);
        if key in included {
          SpliceAfter(fs, keys, items[1..], base, included, work);
        } else if fs.read(full).Some? {
          SpliceFile(fs, keys, items, base, included, work, full, fs.read(full).value);
        }
    }
  }

  /** The case of a file that is read for the first time. */
  lemma {:induction false} SpliceFile(fs: Files, keys: set<string>, items: seq<Item>, base: Base, included: set<string>,
                                      work: seq<Placed>, full: string, sub: seq<Item>)
    requires Finite(fs, keys) && items != [] && items[0].Directive? && full == fs.join(base, items[0].path)
    requires fs.key(full) !in included && fs.read(full) == Some(sub)
    ensures Visited([full], Splice(fs, keys, Place(sub, fs.parent(full)) + (Place(items[1..], base) + work),
                                   included + {fs.key(full)}))
         == Followed(fs, keys, Expand(fs, keys, items, base, included), work)
    decreases keys - included, |items|, 0
  {
    var inner := included + {fs.key(full)};
    var tail := Place(items[1..], base) + work;
    assert fs.key(full) in keys - included && fs.key(full) !in keys - inner;
    var r1 := Expand(fs, keys, sub, fs.parent(full), inner);
    SpliceAfter(fs, keys, sub, fs.parent(full), inner, tail);
    match r1.out
    case None =>
    case Some(out1) =>
      SpliceAfter(fs, keys, items[1..], base, r1.included, work);
      var r2 := Expand(fs, keys, items[1..], base, r1.included);
      FollowedPrefixed(fs, keys, out1, r2, work);
      FollowedVisited(fs, keys, [full] + r1.visited, Prefixed(out1, r2), work);
      var rest := Prefixed(out1, Followed(fs, keys, r2, work));
      assert [full] + (r1.visited + rest.visited) == [full] + r1.visited + rest.visited;
  }

  /** Expanding is splicing: each file stands where its first directive stood, and nowhere else. */
  lemma ExpandIsSplice(fs: Files, keys: set<string>, items: seq<Item>, base: Base, included: set<string>)
    requires Finite(fs, keys)
    ensures Expand(fs, keys, items, base, included) == Splice(fs, keys, Place(items, base), included)
  {
    SpliceAfter(fs, keys, items, base, included, []);
    assert Place(items, base) + [] == Place(items, base);
    var r := Expand(fs, keys, items, base, included);
    match r.out
    case None =>
    case Some(out) => assert out + [] == out && r.visited + [] == r.visited;
  }

  // ----- what an expansion contains -----

  predicate NoDirective(items: seq<Item>) {
    forall item <- items :: item.Own?
  }

  /** The keys of the files read are new, pairwise different, and exactly those added. */
  ghost predicate ReadOnce(fs: Files, visited: seq<string>, before: set<string>, after: set<string>) {
    && (forall i :: 0 <= i < |visited| ==> fs.key(visited[i]) !in before)
    && (forall i, j :: 0 <= i < j < |visited| ==> fs.key(visited[i]) != fs.key(visited[j]))
    && after == before + KeysOf(fs, visited)
  }

  ghost function KeysOf(fs: Files, visited: seq<string>): set<string> {
    set full | full in visited :: fs.key(full)
  }

  /** The items other than directives. */
  function OwnItems(items: seq<Item>): seq<Item> {
    if items == [] then [] else (if items[0].Own? then [items[0]] else []) + OwnItems(items[1..])
  }

  /** The own items of a run of files, each file once. */
  ghost function OwnOf(fs: Files, visited: seq<string>): multiset<Item> {
    if visited == [] then multiset{}
    else
      (match fs.read(visited[0])
       case None => multiset{}
       case Some(sub) => multiset(OwnItems(sub))) + OwnOf(fs, visited[1..])
  }

  lemma {:induction false} OwnOfConcat(fs: Files, a: seq<string>, b: seq<string>)
    ensures OwnOf(fs, a + b) == OwnOf(fs, a) + OwnOf(fs, b)
    decreases |a|
  {
    if a == [] {
      assert a + b == b;
    } else {
      assert (a + b)[1..] == a[1..] + b;
      OwnOfConcat(fs, a[1..], b);
    }
  }

  lemma ReadOnceConcat(fs: Files, a: seq<string>, b: seq<string>, before: set<string>, mid: set<string>,
                       after: set<string>)
    requires ReadOnce(fs, a, before, mid) && ReadOnce(fs, b, mid, after)
    ensures ReadOnce(fs, a + b, before, after)
  {
    var v := a + b;
    forall i, j | 0 <= i < j < |v|
      ensures fs.key(v[i]) != fs.key(v[j])
    {
      if i < |a| <= j {
        assert v[i] in a && fs.key(v[i]) in mid;
        assert v[j] == b[j - |a|];
      } else if |a| <= i {
        assert v[i] == b[i - |a|] && v[j] == b[j - |a|];
      }
    }
    forall i | 0 <= i < |v|
      ensures fs.key(v[i]) !in before
    {
      if |a| <= i { assert v[i] == b[i - |a|]; }
    }
    assert KeysOf(fs, v) == KeysOf(fs, a) + KeysOf(fs, b) by {
      assert forall full :: full in v <==> full in a || full in b;
    }
  }

  lemma ReadOnceOne(fs: Files, full: string, before: set<string>)
    requires fs.key(full) !in before
    ensures ReadOnce(fs, [full], before, before + {fs.key(full)})
  {
    assert KeysOf(fs, [full]) == {fs.key(full)} by {
      assert full in [full];
    }
  }

  /** Every file is read at most once in a session, cycles and repeated directives notwithstanding, and
      the keys included grow by exactly the files read. */
  lemma {:induction false} ExpandReadsOnce(fs: Files, keys: set<string>, items: seq<Item>, base: Base,
                                           included: set<string>)
    requires Finite(fs, keys)
    ensures var r := Expand(fs, keys, items, base, included); ReadOnce(fs, r.visited, included, r.included)
    decreases keys - included, |items|
  {
    if items != [] {
      match items[0]
      case Own(_) => ExpandReadsOnce(fs, keys, items[1..], base, included);
      case Directive(path) =>
        var full := fs.join(base, path);
        var key := fs.key(full);
        if key in included {
          ExpandReadsOnce(fs, keys, items[1..], base, included);
        } else {
          ReadOnceOne(fs, full, included);
          if fs.read(full).Some? {
            var inner := included + {key};
            assert key in keys - included && key !in keys - inner;
            ExpandReadsOnce(fs, keys, fs.read(full).value, fs.parent(full), inner);
            var r1 := Expand(fs, keys, fs.read(full).value, fs.parent(full), inner);
            ReadOnceConcat(fs, [full], r1.visited, included, inner, r1.included);
            if r1.out.Some? {
              ExpandReadsOnce(fs, keys, items[1..], base, r1.included);
              var r2 := Expand(fs, keys, items[1..], base, r1.included);
              ReadOnceConcat(fs, [full] + r1.visited, r2.visited, included, r1.included, r2.included);
            }
          }
        }
    }
  }

  /** No directive is left, and the result holds the program's own items and those of every file read,
      each exactly once. */
  ghost predicate Conserves(fs: Files, items: seq<Item>, out: seq<Item>, visited: seq<string>) {
    NoDirective(out) && multiset(out) == multiset(OwnItems(items)) + OwnOf(fs, visited)
  }

  lemma {:induction false} ExpandConserves(fs: Files, keys: set<string>, items: seq<Item>, base: Base,
                                           included: set<string>)
    requires Finite(fs, keys) && Expand(fs, keys, items, base, included).out.Some?
    ensures var r := Expand(fs, keys, items, base, included); Conserves(fs, items, r.out.value, r.visited)
    decreases keys - included, |items|
  {
    if items != [] {
      var rest := items[1..];
      match items[0]
      case Own(_) =>
        ExpandConserves(fs, keys, rest, base, included);
        var r := Expand(fs, keys, rest, base, included);
        OwnConserved(fs, items, r.out.value, r.visited);
      case Directive(path) =>
        var full := fs.join(base, path);
        var key := fs.key(full);
        assert OwnItems(items) == OwnItems(rest);
        if key in included {
          ExpandConserves(fs, keys, rest, base, included);
        } else {
          var sub := fs.read(full).value;
          var inner := included + {key};
          assert key in keys - included && key !in keys - inner;
          ExpandConserves(fs, keys, sub, fs.parent(full), inner);
          var r1 := Expand(fs, keys, sub, fs.parent(full), inner);
          ExpandConserves(fs, keys, rest, base, r1.included);
          var r2 := Expand(fs, keys, rest, base, r1.included);
          Conserved(fs, full, sub, items, r1.out.value, r1.visited, r2.out.value, r2.visited);
        }
    }
  }

  lemma OwnConserved(fs: Files, items: seq<Item>, out: seq<Item>, visited: seq<string>)
    requires items != [] && items[0].Own? && Conserves(fs, items[1..], out, visited)
    ensures Conserves(fs, items, [items[0]] + out, visited)
  {}

  /** The items of one file and of what it needs, followed by those of the rest. */
  lemma Conserved(fs: Files, full: string, sub: seq<Item>, items: seq<Item>, out1: seq<Item>, visited1: seq<string>,
                  out2: seq<Item>, visited2: seq<string>)
    requires fs.read(full) == Some(sub) && items != [] && items[0].Directive?
    requires Conserves(fs, sub, out1, visited1) && Conserves(fs, items[1..], out2, visited2)
    ensures Conserves(fs, items, out1 + out2, [full] + visited1 + visited2)
  {
    OwnOfConcat(fs, [full] + visited1, visited2);
    assert ([full] + visited1)[1..] == visited1;
    assert OwnItems(items) == OwnItems(items[1..]);
  }

  // ----- nothing is missed, and nothing comes twice -----

  /** The directives of these items, seen from this directory, are all included. */
  ghost predicate Covered(fs: Files, items: seq<Item>, base: Base, included: set<string>) {
    forall item <- items :: item.Directive? ==> fs.key(fs.join(base, item.path)) in included
  }

  ghost predicate FileCovered(fs: Files, full: string, included: set<string>) {
    match fs.read(full)
    case None => true
    case Some(sub) => Covered(fs, sub, fs.parent(full), included)
  }

  /** On success everything that the program or a file read asks for is included. */
  lemma {:induction false} ExpandCovers(fs: Files, keys: set<string>, items: seq<Item>, base: Base,
                                        included: set<string>)
    requires Finite(fs, keys) && Expand(fs, keys, items, base, included).out.Some?
    ensures var r := Expand(fs, keys, items, base, included);
            && Covered(fs, items, base, r.included)
            && (forall full <- r.visited :: FileCovered(fs, full, r.included))
    decreases keys - included, |items|
  {
    if items != [] {
      var r := Expand(fs, keys, items, base, included);
      assert items == [items[0]] + items[1..];
      match items[0]
      case Own(_) => ExpandCovers(fs, keys, items[1..], base, included);
      case Directive(path) =>
        var full := fs.join(base, path);
        var key := fs.key(full);
        if key in included {
          ExpandCovers(fs, keys, items[1..], base, included);
        } else {
          var sub := fs.read(full).value;
          var inner := included + {key};
          assert key in keys - included && key !in keys - inner;
          ExpandCovers(fs, keys, sub, fs.parent(full), inner);
          var r1 := Expand(fs, keys, sub, fs.parent(full), inner);
          ExpandCovers(fs, keys, items[1..], base, r1.included);
          assert r1.included <= r.included;
          forall f | f in r.visited
            ensures FileCovered(fs, f, r.included)
          {
            if f == full {
              assert Covered(fs, sub, fs.parent(full), r1.included);
            } else if f in r1.visited {
              assert FileCovered(fs, f, r1.included);
            }
          }
        }
    }
  }

  /** A program all of whose files are already included contributes its own items, reads nothing and
      includes nothing; so a second expansion adds no file. */
  lemma {:induction false} NothingTwice(fs: Files, keys: set<string>, items: seq<Item>, base: Base,
                                        included: set<string>)
    requires Finite(fs, keys) && Covered(fs, items, base, included)
    ensures Expand(fs, keys, items, base, included) == Expansion(Some(OwnItems(items)), included, [])
    decreases |items|
  {
    if items != [] {
      NothingTwice(fs, keys, items[1..], base, included);
      assert [] + OwnItems(items[1..]) == OwnItems(items[1..]);
    }
  }
}
