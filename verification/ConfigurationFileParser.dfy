/**
 Flattening a JSON property tree into program options
 (libs/Common/src/ConfigurationFileParser.cpp): a value reached through members a, b, c becomes the
 option a.b.c, and consecutive values of one name are gathered in one option.

 A property tree node has a value and a list of named children; the elements of a JSON array are
 children with an empty name.
 */
module ConfigurationFileParsers {
  import opened DottedNames
  import opened Options
  import opened Sequences

  datatype Tree = Tree(data: string, children: seq<(string, Tree)>)

  /** A parsed option with the values gathered under its name. */
  datatype ParsedOption = ParsedOption(key: string, values: seq<string>)

  /** A value with the prefix it is reached by: a dot before each name. */
  datatype Leaf = Leaf(prefix: string, value: string)

  /** `OutOfRange`: the first character of an empty prefix was to be dropped. */
  datatype ParseError = OutOfRange | UnknownOption(name: string)

  function Extend(prefix: string, name: string): string {
    prefix + "." + name
  }

  // ---------------------------------------------------------------------------------------------
  // The values the parser visits

  /** What `parseChildren` pushes, in order: an unnamed child counts with its own value, whatever is below it. */
  function Visited(prefix: string, tree: Tree): seq<Leaf>
    decreases tree, |tree.children| + 1
  {
    if tree.children == [] then [Leaf(prefix, tree.data)] else VisitedChildren(prefix, tree, |tree.children|)
  }

  /** The same for the first n children. */
  function VisitedChildren(prefix: string, tree: Tree, n: nat): seq<Leaf>
    requires n <= |tree.children|
    decreases tree, n
  {
    if n == 0 then [] else VisitedChildren(prefix, tree, n - 1) + VisitedChild(prefix, tree.children[n - 1])
  }

  function VisitedChild(prefix: string, child: (string, Tree)): seq<Leaf>
    decreases child, 1
  {
    if child.0 == "" then [Leaf(prefix, child.1.data)] else Visited(Extend(prefix, child.0), child.1)
  }

  /** The names lead from the root to the value, one member after the other; the value may stand in an unnamed child. */
  ghost predicate Holds(tree: Tree, names: seq<string>, value: string)
    decreases tree
  {
    if tree.children == [] then names == [] && value == tree.data
    else if names == [] then exists i :: 0 <= i < |tree.children| && UnnamedValue(tree.children[i], value)
    else names[0] != "" && exists i :: 0 <= i < |tree.children| && HoldsBelow(tree.children[i], names, value)
  }

  predicate UnnamedValue(child: (string, Tree), value: string) {
    child.0 == "" && child.1.data == value
  }

  ghost predicate HoldsBelow(child: (string, Tree), names: seq<string>, value: string)
    requires names != []
    decreases child
  {
    child.0 == names[0] && Holds(child.1, names[1..], value)
  }

  /** A dot before each name. */
  function Dotted(names: seq<string>): string {
    if names == [] then "" else "." + names[0] + Dotted(names[1..])
  }

  lemma {:induction false} DottedIsJoined(names: seq<string>)
    requires names != []
    ensures Dotted(names) == "." + JoinDot(names)
    decreases |names|
  {
    if |names| == 1 {
      assert Dotted(names[1..]) == "";
    } else {
      DottedIsJoined(names[1..]);
      JoinFromTheFront(names);
    }
  }

  ghost predicate Reached(prefix: string, tree: Tree, leaf: Leaf, names: seq<string>) {
    Holds(tree, names, leaf.value) && leaf.prefix == prefix + Dotted(names)
  }

  ghost predicate ReachedBelow(prefix: string, child: (string, Tree), leaf: Leaf) {
    if child.0 == "" then leaf == Leaf(prefix, child.1.data)
    else exists names :: Reached(Extend(prefix, child.0), child.1, leaf, names)
  }

  /** In a node with children a value is reached iff it is below one of them. */
  lemma ReachedIffBelow(prefix: string, tree: Tree, leaf: Leaf)
    requires tree.children != []
    ensures (exists names :: Reached(prefix, tree, leaf, names)) <==>
            exists i :: 0 <= i < |tree.children| && ReachedBelow(prefix, tree.children[i], leaf)
  {
    if names :| Reached(prefix, tree, leaf, names) {
      if names == [] {
        var i :| 0 <= i < |tree.children| && UnnamedValue(tree.children[i], leaf.value);
        assert ReachedBelow(prefix, tree.children[i], leaf);
      } else {
        var i :| 0 <= i < |tree.children| && HoldsBelow(tree.children[i], names, leaf.value);
        assert Extend(prefix, names[0]) + Dotted(names[1..]) == prefix + Dotted(names);
        assert Reached(Extend(prefix, names[0]), tree.children[i].1, leaf, names[1..]);
        assert ReachedBelow(prefix, tree.children[i], leaf);
      }
    }
    if i :| 0 <= i < |tree.children| && ReachedBelow(prefix, tree.children[i], leaf) {
      var child := tree.children[i];
      if child.0 == "" {
        assert UnnamedValue(child, leaf.value);
        assert Reached(prefix, tree, leaf, []);
      } else {
        var names :| Reached(Extend(prefix, child.0), child.1, leaf, names);
        var longer := [child.0] + names;
        assert longer[1..] == names;
        assert HoldsBelow(child, longer, leaf.value);
        assert Extend(prefix, child.0) + Dotted(names) == prefix + Dotted(longer);
        assert Reached(prefix, tree, leaf, longer);
      }
    }
  }

  lemma {:induction false} VisitedIffReached(prefix: string, tree: Tree, leaf: Leaf)
    ensures leaf in Visited(prefix, tree) <==> exists names :: Reached(prefix, tree, leaf, names)
    decreases tree, |tree.children| + 1
  {
    if tree.children == [] {
      assert Dotted([]) == "" && prefix + "" == prefix;
      if leaf == Leaf(prefix, tree.data) { assert Reached(prefix, tree, leaf, []); }
    } else {
      ReachedIffBelow(prefix, tree, leaf);
      ChildrenIffReached(prefix, tree, |tree.children|, leaf);
    }
  }

  lemma {:induction false} ChildrenIffReached(prefix: string, tree: Tree, n: nat, leaf: Leaf)
    requires n <= |tree.children|
    ensures leaf in VisitedChildren(prefix, tree, n) <==>
            exists i :: 0 <= i < n && ReachedBelow(prefix, tree.children[i], leaf)
    decreases tree, n
  {
    if n > 0 {
      ChildrenIffReached(prefix, tree, n - 1, leaf);
      var child := tree.children[n - 1];
      if child.0 != "" { VisitedIffReached(Extend(prefix, child.0), child.1, leaf); }
      assert leaf in VisitedChild(prefix, child) <==> ReachedBelow(prefix, child, leaf);
    }
  }

  /** Main result on names: exactly the values that names a, b, c lead to are visited, each under .a.b.c. */
  lemma PrefixesAreThePaths(tree: Tree, leaf: Leaf)
    ensures leaf in Visited("", tree) <==>
            exists names :: Holds(tree, names, leaf.value) &&
              leaf.prefix == if names == [] then "" else "." + JoinDot(names)
  {
    VisitedIffReached("", tree, leaf);
    forall names ensures "" + Dotted(names) == if names == [] then "" else "." + JoinDot(names) {
      if names != [] { DottedIsJoined(names); }
    }
    if names :| Reached("", tree, leaf, names) {
      assert Holds(tree, names, leaf.value);
    }
    if names :| Holds(tree, names, leaf.value) && leaf.prefix == if names == [] then "" else "." + JoinDot(names) {
      assert Reached("", tree, leaf, names);
    }
  }

  /** Siblings are visited in their order. */
  lemma SiblingsInOrder(prefix: string, data: string, a: seq<(string, Tree)>, b: seq<(string, Tree)>)
    requires a != [] && b != []
    ensures Visited(prefix, Tree(data, a + b)) == Visited(prefix, Tree(data, a)) + Visited(prefix, Tree(data, b))
  {
    FirstSiblings(prefix, data, a, b, |a|);
    OtherSiblings(prefix, data, a, b, |b|);
  }

  lemma {:induction false} FirstSiblings(
      prefix: string, data: string, a: seq<(string, Tree)>, b: seq<(string, Tree)>, n: nat)
    requires n <= |a|
    ensures VisitedChildren(prefix, Tree(data, a + b), n) == VisitedChildren(prefix, Tree(data, a), n)
  {
    if n > 0 {
      FirstSiblings(prefix, data, a, b, n - 1);
      assert Tree(data, a + b).children[n - 1] == Tree(data, a).children[n - 1];
    }
  }

  lemma {:induction false} OtherSiblings(
      prefix: string, data: string, a: seq<(string, Tree)>, b: seq<(string, Tree)>, n: nat)
    requires n <= |b|
    ensures VisitedChildren(prefix, Tree(data, a + b), |a| + n)
         == VisitedChildren(prefix, Tree(data, a), |a|) + VisitedChildren(prefix, Tree(data, b), n)
  {
    if n == 0 {
      FirstSiblings(prefix, data, a, b, |a|);
    } else {
      OtherSiblings(prefix, data, a, b, n - 1);
      assert Tree(data, a + b).children[|a| + n - 1] == Tree(data, b).children[n - 1];
      AppendIsAssociative(
        VisitedChildren(prefix, Tree(data, a), |a|), VisitedChildren(prefix, Tree(data, b), n - 1),
        VisitedChild(prefix, b[n - 1]));
    }
  }

  /** A leaf that can be pushed: its prefix is not empty, and the name after the first dot is registered. */
  predicate Good(leaf: Leaf, registered: set<string>) {
    leaf.prefix != "" && leaf.prefix[1..] in registered
  }

  predicate AllGood(leaves: seq<Leaf>, registered: set<string>) {
    forall i :: 0 <= i < |leaves| ==> Good(leaves[i], registered)
  }

  function Complaint(leaf: Leaf): ParseError {
    if leaf.prefix == "" then OutOfRange else UnknownOption(leaf.prefix[1..])
  }

  // ---------------------------------------------------------------------------------------------
  // Gathering

  function Gather(options: seq<ParsedOption>, leaf: Leaf): seq<ParsedOption>
    requires leaf.prefix != ""
  {
    var n := |options| - 1;
    var name := leaf.prefix[1..];
    if options != [] && options[n].key == name
    then options[n := options[n].(values := options[n].values + [leaf.value])]
    else options + [ParsedOption(name, [leaf.value])]
  }

  function GatherAll(options: seq<ParsedOption>, leaves: seq<Leaf>): seq<ParsedOption>
    requires forall i :: 0 <= i < |leaves| ==> leaves[i].prefix != ""
    decreases |leaves|
  {
    if leaves == [] then options else Gather(GatherAll(options, leaves[..|leaves| - 1]), leaves[|leaves| - 1])
  }

  datatype Pair = Pair(name: string, value: string)

  function PairsOf(option: ParsedOption): (r: seq<Pair>)
    ensures |r| == |option.values|
  {
    seq(|option.values|, i requires 0 <= i < |option.values| => Pair(option.key, option.values[i]))
  }

  /** The options written out one value at a time. */
  function Expand(options: seq<ParsedOption>): seq<Pair>
    decreases |options|
  {
    if options == [] then [] else Expand(options[..|options| - 1]) + PairsOf(options[|options| - 1])
  }

  function Named(leaves: seq<Leaf>): (r: seq<Pair>)
    requires forall i :: 0 <= i < |leaves| ==> leaves[i].prefix != ""
    ensures |r| == |leaves|
  {
    seq(|leaves|, i requires 0 <= i < |leaves| => Pair(leaves[i].prefix[1..], leaves[i].value))
  }

  /** No option is empty, and neighbours have different names. */
  ghost predicate Proper(options: seq<ParsedOption>) {
    && (forall i :: 0 <= i < |options| ==> options[i].values != [])
    && (forall i :: 0 < i < |options| ==> options[i - 1].key != options[i].key)
  }

  lemma ExpandAppend(options: seq<ParsedOption>, option: ParsedOption)
    ensures Expand(options + [option]) == Expand(options) + PairsOf(option)
  {
    assert (options + [option])[..|options|] == options;
  }

  lemma PairsOfMore(option: ParsedOption, value: string)
    ensures PairsOf(option.(values := option.values + [value])) == PairsOf(option) + [Pair(option.key, value)]
  {
  }

  lemma GatherAddsOnePair(options: seq<ParsedOption>, leaf: Leaf)
    requires leaf.prefix != ""
    ensures Expand(Gather(options, leaf)) == Expand(options) + [Pair(leaf.prefix[1..], leaf.value)]
  {
    var name := leaf.prefix[1..];
    if options != [] && options[|options| - 1].key == name {
      var front, last := options[..|options| - 1], options[|options| - 1];
      var longer := last.(values := last.values + [leaf.value]);
      assert options == front + [last] && Gather(options, leaf) == front + [longer];
      ExpandAppend(front, last);
      ExpandAppend(front, longer);
      PairsOfMore(last, leaf.value);
      AppendIsAssociative(Expand(front), PairsOf(last), [Pair(name, leaf.value)]);
    } else {
      ExpandAppend(options, ParsedOption(name, [leaf.value]));
      assert PairsOf(ParsedOption(name, [leaf.value])) == [Pair(name, leaf.value)];
    }
  }

  lemma GatherKeepsProper(options: seq<ParsedOption>, leaf: Leaf)
    requires leaf.prefix != "" && Proper(options)
    ensures Proper(Gather(options, leaf))
  {
  }

  lemma NamedStep(before: seq<Leaf>, leaf: Leaf)
    requires leaf.prefix != "" && forall i :: 0 <= i < |before| ==> before[i].prefix != ""
    ensures Named(before + [leaf]) == Named(before) + [Pair(leaf.prefix[1..], leaf.value)]
  {
  }

  /** Gathering keeps every value, in order, and leaves nothing that could still be gathered. */
  lemma {:induction false} GatheringKeepsEveryValue(options: seq<ParsedOption>, leaves: seq<Leaf>)
    requires Proper(options)
    requires forall i :: 0 <= i < |leaves| ==> leaves[i].prefix != ""
    ensures Expand(GatherAll(options, leaves)) == Expand(options) + Named(leaves)
    ensures Proper(GatherAll(options, leaves))
    decreases |leaves|
  {
    if leaves == [] {
      assert Expand(options) + Named(leaves) == Expand(options);
    } else {
      var before, leaf := leaves[..|leaves| - 1], leaves[|leaves| - 1];
      GatheringKeepsEveryValue(options, before);
      GatherAddsOnePair(GatherAll(options, before), leaf);
      GatherKeepsProper(GatherAll(options, before), leaf);
      assert leaves == before + [leaf];
      NamedStep(before, leaf);
      AppendIsAssociative(Expand(options), Named(before), [Pair(leaf.prefix[1..], leaf.value)]);
    }
  }

  /** Without its last value; the option goes when it had no other. */
  function Shorten(options: seq<ParsedOption>): seq<ParsedOption>
    requires options != []
  {
    var n := |options| - 1;
    if |options[n].values| <= 1 then options[..n]
    else options[n := options[n].(values := options[n].values[..|options[n].values| - 1])]
  }

  lemma ShortenDropsOnePair(options: seq<ParsedOption>)
    requires options != [] && Proper(options)
    ensures Proper(Shorten(options))
    ensures var n := |options| - 1;
            Expand(options) == Expand(Shorten(options)) +
                               [Pair(options[n].key, options[n].values[|options[n].values| - 1])]
    ensures Shorten(options) != [] && Shorten(options)[|Shorten(options)| - 1].key == options[|options| - 1].key
            <==> |options[|options| - 1].values| > 1
  {
    var n := |options| - 1;
    var shorter := Shorten(options);
    if |options[n].values| > 1 {
      assert shorter[..n] == options[..n];
      assert PairsOf(options[n])
          == PairsOf(shorter[n]) + [Pair(options[n].key, options[n].values[|options[n].values| - 1])];
    } else {
      assert PairsOf(options[n]) == [Pair(options[n].key, options[n].values[0])];
    }
  }

  /** The gathered form is determined by the values: there is only one proper list of options for them. */
  lemma {:induction false} GatheringIsUnique(a: seq<ParsedOption>, b: seq<ParsedOption>)
    requires Proper(a) && Proper(b) && Expand(a) == Expand(b)
    ensures a == b
    decreases |Expand(a)|
  {
    if a == [] || b == [] {
      if a != [] { ShortenDropsOnePair(a); }
      if b != [] { ShortenDropsOnePair(b); }
    } else {
      ShortenDropsOnePair(a);
      ShortenDropsOnePair(b);
      var n, m := |a| - 1, |b| - 1;
      var x := Pair(a[n].key, a[n].values[|a[n].values| - 1]);
      var y := Pair(b[m].key, b[m].values[|b[m].values| - 1]);
      LastOfEqual(Expand(Shorten(a)), x, Expand(Shorten(b)), y);
      GatheringIsUnique(Shorten(a), Shorten(b));
      Rebuild(a);
      Rebuild(b);
    }
  }

  lemma LastOfEqual(s: seq<Pair>, x: Pair, t: seq<Pair>, y: Pair)
    requires s + [x] == t + [y]
    ensures s == t && x == y
  {
    assert (s + [x])[|s|] == x && (t + [y])[|t|] == y;
    assert s == (s + [x])[..|s|] && t == (t + [y])[..|t|];
  }

  /** Gathering the dropped value again gives the list back. */
  lemma Rebuild(options: seq<ParsedOption>)
    requires options != [] && Proper(options)
    ensures var n := |options| - 1;
            options == Gather(Shorten(options),
                              Leaf("." + options[n].key, options[n].values[|options[n].values| - 1]))
  {
    var n := |options| - 1;
    var key := options[n].key;
    assert ("." + key)[1..] == key;
    var shorter := Shorten(options);
    if |options[n].values| > 1 {
      assert options[n].values == shorter[n].values + [options[n].values[|options[n].values| - 1]];
    } else {
      assert options[n].values == [options[n].values[0]];
    }
  }

  // ---------------------------------------------------------------------------------------------
  // The parser

  lemma {:induction false} GatherAllAppend(options: seq<ParsedOption>, a: seq<Leaf>, b: seq<Leaf>)
    requires forall i :: 0 <= i < |a| ==> a[i].prefix != ""
    requires forall i :: 0 <= i < |b| ==> b[i].prefix != ""
    ensures GatherAll(options, a + b) == GatherAll(GatherAll(options, a), b)
    decreases |b|
  {
    if b == [] {
      assert a + b == a;
    } else {
      assert (a + b)[..|a + b| - 1] == a + b[..|b| - 1];
      GatherAllAppend(options, a, b[..|b| - 1]);
    }
  }

  class JsonParser {
    const registered: set<string>
    var options: seq<ParsedOption>

    constructor (registered: set<string>)
      ensures this.registered == registered && options == []
    {
      this.registered := registered;
      options := [];
    }

    /** `pushOption(prefix.substr(1), value, options)`. */
    method PushOption(prefix: string, value: string) returns (r: Result<(), ParseError>)
      modifies this
      ensures var leaf := Leaf(prefix, value);
              if Good(leaf, registered) then r == Ok(()) && options == Gather(old(options), leaf)
              else r == Err(Complaint(leaf)) && options == old(options)
      ensures r == Err(OutOfRange) <==> prefix == ""
      ensures prefix != "" ==> (r == Err(UnknownOption(prefix[1..])) <==> prefix[1..] !in registered)
      ensures r.Ok? <==> prefix != "" && prefix[1..] in registered
      ensures r.Ok? ==> Expand(options) == Expand(old(options)) + [Pair(prefix[1..], value)]
    {
      if prefix == "" {
        return Err(OutOfRange);
      }
      GatherAddsOnePair(options, Leaf(prefix, value));
      var name := prefix[1..];
      if name !in registered {
        return Err(UnknownOption(name));
      }
      if options != [] && options[|options| - 1].key == name {
        var option := options[|options| - 1];
        options := options[|options| - 1 := option.(values := option.values + [value])];
      } else {
        options := options + [ParsedOption(name, [value])];
      }
      return Ok(());
    }

    /** A single visited value. */
    method PushLeaf(leaf: Leaf) returns (r: Result<(), ParseError>)
      modifies this
      ensures r.Ok? <==> AllGood([leaf], registered)
      ensures r.Ok? ==> options == GatherAll(old(options), [leaf])
      ensures r.Err? ==> FailsWith([leaf], r.error, registered)
    {
      r := PushOption(leaf.prefix, leaf.value);
      SingleFails(leaf, registered);
      assert [leaf][0] == leaf;
    }

    /** Succeeds exactly when every visited value can be pushed, and has then gathered them all in order. */
    method ParseChildren(prefix: string, tree: Tree) returns (r: Result<(), ParseError>)
      modifies this
      ensures r.Ok? <==> AllGood(Visited(prefix, tree), registered)
      ensures r.Ok? ==> options == GatherAll(old(options), Visited(prefix, tree))
      ensures r.Err? ==> FailsWith(Visited(prefix, tree), r.error, registered)
      decreases tree, |tree.children| + 2
    {
      if |tree.children| == 0 {
        r := PushLeaf(Leaf(prefix, tree.data));
      } else {
        r := ParseEachChild(prefix, tree);
      }
    }

    /** The loop over the children. */
    method ParseEachChild(prefix: string, tree: Tree) returns (r: Result<(), ParseError>)
      modifies this
      ensures var leaves := VisitedChildren(prefix, tree, |tree.children|);
              && (r.Ok? <==> AllGood(leaves, registered))
              && (r.Ok? ==> Gathered(old(options), leaves, options))
              && (r.Err? ==> FailsWith(leaves, r.error, registered))
      decreases tree, |tree.children| + 1
    {
      ghost var before, done := options, VisitedChildren(prefix, tree, 0);
      for n := 0 to |tree.children|
        invariant done == VisitedChildren(prefix, tree, n) && AllGood(done, registered)
        invariant Gathered(before, done, options)
      {
        ghost var soFar := options;
        r := ParseChild(prefix, tree.children[n]);
        if r.Err? {
          ChildFailed(prefix, tree, n, r.error, registered);
          return;
        }
        ChildGathered(prefix, tree, n, before, soFar, options, registered);
        done := VisitedChildren(prefix, tree, n + 1);
      }
      return Ok(());
    }

    /** The body of the loop. */
    method ParseChild(prefix: string, child: (string, Tree)) returns (r: Result<(), ParseError>)
      modifies this
      ensures r.Ok? <==> AllGood(VisitedChild(prefix, child), registered)
      ensures r.Ok? ==> Gathered(old(options), VisitedChild(prefix, child), options)
      ensures r.Err? ==> FailsWith(VisitedChild(prefix, child), r.error, registered)
      decreases child, 1
    {
      if child.0 == "" {
        r := PushLeaf(Leaf(prefix, child.1.data));
      } else {
        r := ParseChildren(Extend(prefix, child.0), child.1);
      }
    }
  }

  /** The error is that of the first leaf that cannot be pushed. */
  ghost predicate FailsWith(leaves: seq<Leaf>, error: ParseError, registered: set<string>) {
    exists i :: 0 <= i < |leaves| && FirstBad(leaves, i, registered) && error == Complaint(leaves[i])
  }

  ghost predicate FirstBad(leaves: seq<Leaf>, i: nat, registered: set<string>)
    requires i < |leaves|
  {
    !Good(leaves[i], registered) && forall j :: 0 <= j < i ==> Good(leaves[j], registered)
  }

  lemma SingleFails(leaf: Leaf, registered: set<string>)
    ensures GatherAllOfOne(leaf)
    ensures !Good(leaf, registered) ==> FailsWith([leaf], Complaint(leaf), registered)
  {
    assert [leaf][..0] == [];
    assert !Good(leaf, registered) ==> FirstBad([leaf], 0, registered);
  }

  ghost predicate GatherAllOfOne(leaf: Leaf) {
    leaf.prefix != "" ==> forall options :: GatherAll(options, [leaf]) == Gather(options, leaf)
  }

  lemma {:induction false} VisitedPrefix(prefix: string, tree: Tree, n: nat)
    requires 0 < n <= |tree.children|
    ensures VisitedChildren(prefix, tree, n) <= VisitedChildren(prefix, tree, |tree.children|)
    decreases |tree.children| - n
  {
    if n < |tree.children| {
      VisitedPrefix(prefix, tree, n + 1);
    }
  }

  lemma FailsLater(leaves: seq<Leaf>, done: seq<Leaf>, more: seq<Leaf>, error: ParseError, registered: set<string>)
    requires done + more <= leaves && AllGood(done, registered)
    requires FailsWith(more, error, registered)
    ensures FailsWith(leaves, error, registered) && !AllGood(leaves, registered)
  {
    var i :| 0 <= i < |more| && FirstBad(more, i, registered) && error == Complaint(more[i]);
    var k := |done| + i;
    assert leaves[k] == (done + more)[k] == more[i];
    forall j | 0 <= j < k ensures Good(leaves[j], registered) {
      assert leaves[j] == (done + more)[j];
    }
    assert FirstBad(leaves, k, registered);
  }

  lemma ChildFailed(prefix: string, tree: Tree, n: nat, error: ParseError, registered: set<string>)
    requires n < |tree.children| && AllGood(VisitedChildren(prefix, tree, n), registered)
    requires FailsWith(VisitedChild(prefix, tree.children[n]), error, registered)
    ensures var leaves := VisitedChildren(prefix, tree, |tree.children|);
            FailsWith(leaves, error, registered) && !AllGood(leaves, registered)
  {
    VisitedPrefix(prefix, tree, n + 1);
    FailsLater(
      VisitedChildren(prefix, tree, |tree.children|), VisitedChildren(prefix, tree, n),
      VisitedChild(prefix, tree.children[n]), error, registered);
  }

  /** The options after gathering these leaves. */
  ghost predicate Gathered(before: seq<ParsedOption>, leaves: seq<Leaf>, after: seq<ParsedOption>) {
    (forall i :: 0 <= i < |leaves| ==> leaves[i].prefix != "") && after == GatherAll(before, leaves)
  }

  lemma ChildGathered(
      prefix: string, tree: Tree, n: nat, before: seq<ParsedOption>, soFar: seq<ParsedOption>, after: seq<ParsedOption>,
      registered: set<string>)
    requires n < |tree.children| && AllGood(VisitedChildren(prefix, tree, n), registered)
    requires AllGood(VisitedChild(prefix, tree.children[n]), registered)
    requires Gathered(before, VisitedChildren(prefix, tree, n), soFar)
    requires Gathered(soFar, VisitedChild(prefix, tree.children[n]), after)
    ensures AllGood(VisitedChildren(prefix, tree, n + 1), registered)
    ensures Gathered(before, VisitedChildren(prefix, tree, n + 1), after)
  {
    GatherAllAppend(before, VisitedChildren(prefix, tree, n), VisitedChild(prefix, tree.children[n]));
  }

  lemma FailureIsTheFirst(leaves: seq<Leaf>, error: ParseError, registered: set<string>)
    requires FailsWith(leaves, error, registered)
    ensures exists i :: 0 <= i < |leaves|
              && (forall j :: 0 <= j < i ==> leaves[j].prefix != "" && leaves[j].prefix[1..] in registered)
              && if leaves[i].prefix == "" then error == OutOfRange
                 else leaves[i].prefix[1..] !in registered && error == UnknownOption(leaves[i].prefix[1..])
  {
    var i :| 0 <= i < |leaves| && FirstBad(leaves, i, registered) && error == Complaint(leaves[i]);
    assert forall j :: 0 <= j < i ==> Good(leaves[j], registered);
  }

  lemma GatheredFromNothing(leaves: seq<Leaf>, registered: set<string>)
    requires AllGood(leaves, registered)
    ensures forall i :: 0 <= i < |leaves| ==> leaves[i].prefix != ""
    ensures Proper(GatherAll([], leaves)) && |Expand(GatherAll([], leaves))| == |leaves|
    ensures forall i :: 0 <= i < |leaves| ==>
              Expand(GatherAll([], leaves))[i] == Pair(leaves[i].prefix[1..], leaves[i].value)
  {
    GatheringKeepsEveryValue([], leaves);
    assert Expand([]) + Named(leaves) == Named(leaves);
  }

  /** Parsing a whole file. */
  method Parse(tree: Tree, registered: set<string>) returns (r: Result<seq<ParsedOption>, ParseError>)
    ensures var leaves := Visited("", tree);
            r.Ok? <==> forall i :: 0 <= i < |leaves| ==> leaves[i].prefix != "" && leaves[i].prefix[1..] in registered
    ensures r.Ok? ==> Proper(r.value) && |Expand(r.value)| == |Visited("", tree)|
    ensures r.Ok? ==>
              forall i :: 0 <= i < |Visited("", tree)| ==>
                var leaf := Visited("", tree)[i];
                leaf.prefix != "" && Expand(r.value)[i] == Pair(leaf.prefix[1..], leaf.value)
    ensures r.Err? ==>
              exists i :: 0 <= i < |Visited("", tree)| &&
                var leaf := Visited("", tree)[i];
                && (forall j :: 0 <= j < i ==>
                      Visited("", tree)[j].prefix != "" && Visited("", tree)[j].prefix[1..] in registered)
                && if leaf.prefix == "" then r.error == OutOfRange
                   else leaf.prefix[1..] !in registered && r.error == UnknownOption(leaf.prefix[1..])
  {
    var parser := new JsonParser(registered);
    ghost var leaves := Visited("", tree);
    var parsed := parser.ParseChildren("", tree);
    if parsed.Err? {
      FailureIsTheFirst(leaves, parsed.error, registered);
      return Err(parsed.error);
    }
    GatheredFromNothing(leaves, registered);
    return Ok(parser.options);
  }

  // ---------------------------------------------------------------------------------------------
  // Visited values and leaves of the tree

  /** All leaves of a tree, in order, each with the names on the way to it. */
  function Leaves(prefix: string, tree: Tree): seq<Leaf>
    decreases tree, |tree.children| + 1
  {
    if tree.children == [] then [Leaf(prefix, tree.data)] else LeavesOfChildren(prefix, tree, |tree.children|)
  }

  function LeavesOfChildren(prefix: string, tree: Tree, n: nat): seq<Leaf>
    requires n <= |tree.children|
    decreases tree, n
  {
    if n == 0 then [] else LeavesOfChildren(prefix, tree, n - 1) + LeavesOfChild(prefix, tree.children[n - 1])
  }

  function LeavesOfChild(prefix: string, child: (string, Tree)): seq<Leaf>
    decreases child, 1
  {
    Leaves(if child.0 == "" then prefix else Extend(prefix, child.0), child.1)
  }

  /** Below an unnamed child stands at most one value, its own: a leaf, or a chain of unnamed only children. */
  predicate SingleValue(tree: Tree, value: string) {
    if tree.children == [] then tree.data == value
    else |tree.children| == 1 && tree.children[0].0 == "" && SingleValue(tree.children[0].1, value)
  }

  predicate Flat(tree: Tree)
    decreases tree, |tree.children| + 1
  {
    FlatUpTo(tree, |tree.children|)
  }

  predicate FlatUpTo(tree: Tree, n: nat)
    requires n <= |tree.children|
    decreases tree, n
  {
    n == 0 || (FlatUpTo(tree, n - 1) && ChildIsFlat(tree.children[n - 1]))
  }

  predicate ChildIsFlat(child: (string, Tree))
    decreases child, 1
  {
    if child.0 == "" then SingleValue(child.1, child.1.data) else Flat(child.1)
  }

  /** Every prefix is at least this long. */
  ghost predicate AtLeast(leaves: seq<Leaf>, length: nat) {
    forall i :: 0 <= i < |leaves| ==> |leaves[i].prefix| >= length
  }

  lemma AtLeastAppend(a: seq<Leaf>, b: seq<Leaf>, length: nat, longer: nat)
    requires AtLeast(a, length) && AtLeast(b, longer) && length <= longer
    ensures AtLeast(a + b, length)
  {
  }

  lemma {:induction false} LeavesBelow(prefix: string, tree: Tree)
    ensures Leaves(prefix, tree) != [] && AtLeast(Leaves(prefix, tree), |prefix|)
    decreases tree, |tree.children| + 1
  {
    if tree.children != [] {
      LeavesBelowChildren(prefix, tree, |tree.children|);
    }
  }

  lemma {:induction false} LeavesBelowChildren(prefix: string, tree: Tree, n: nat)
    requires n <= |tree.children|
    ensures |LeavesOfChildren(prefix, tree, n)| >= n && AtLeast(LeavesOfChildren(prefix, tree, n), |prefix|)
    decreases tree, n
  {
    if n > 0 {
      LeavesBelowChildren(prefix, tree, n - 1);
      var child := tree.children[n - 1];
      var path := if child.0 == "" then prefix else Extend(prefix, child.0);
      LeavesBelow(path, child.1);
      AtLeastAppend(LeavesOfChildren(prefix, tree, n - 1), Leaves(path, child.1), |prefix|, |path|);
    }
  }

  lemma {:induction false} OneLeafIff(prefix: string, tree: Tree, value: string)
    ensures Leaves(prefix, tree) == [Leaf(prefix, value)] <==> SingleValue(tree, value)
    decreases tree
  {
    if tree.children != [] {
      LeavesBelowChildren(prefix, tree, |tree.children|);
      if |tree.children| == 1 {
        var child := tree.children[0];
        assert LeavesOfChildren(prefix, tree, 1) == [] + LeavesOfChild(prefix, child) == LeavesOfChild(prefix, child);
        if child.0 == "" {
          OneLeafIff(prefix, child.1, value);
        } else {
          LeavesBelow(Extend(prefix, child.0), child.1);
          assert |Leaves(Extend(prefix, child.0), child.1)[0].prefix| > |prefix|;
        }
      }
    }
  }

  lemma SplitEqual(a: seq<Leaf>, b: seq<Leaf>, c: seq<Leaf>, d: seq<Leaf>)
    requires |a| <= |c| && |b| <= |d|
    ensures a + b == c + d <==> a == c && b == d
  {
    if a + b == c + d {
      assert |a| == |c|;
      assert a == (a + b)[..|a|] && c == (c + d)[..|c|];
      assert b == (a + b)[|a|..] && d == (c + d)[|c|..];
    }
  }

  lemma {:induction false} VisitedIffChildren(prefix: string, tree: Tree, n: nat)
    requires n <= |tree.children|
    ensures |VisitedChildren(prefix, tree, n)| <= |LeavesOfChildren(prefix, tree, n)|
    ensures VisitedChildren(prefix, tree, n) == LeavesOfChildren(prefix, tree, n) <==> FlatUpTo(tree, n)
    decreases tree, n
  {
    if n > 0 {
      VisitedIffChildren(prefix, tree, n - 1);
      var child := tree.children[n - 1];
      if child.0 == "" {
        OneLeafIff(prefix, child.1, child.1.data);
        LeavesBelow(prefix, child.1);
      } else {
        VisitedAreTheLeavesIff(Extend(prefix, child.0), child.1);
      }
      SplitEqual(VisitedChildren(prefix, tree, n - 1), VisitedChild(prefix, child),
                 LeavesOfChildren(prefix, tree, n - 1), LeavesOfChild(prefix, child));
    }
  }

  /**
   Main result: the parser visits exactly the leaves of the tree, in order, iff no value is nested
   below an unnamed child; from any other tree it drops values without saying so.
   */
  lemma {:induction false} VisitedAreTheLeavesIff(prefix: string, tree: Tree)
    ensures |Visited(prefix, tree)| <= |Leaves(prefix, tree)|
    ensures Visited(prefix, tree) == Leaves(prefix, tree) <==> Flat(tree)
    decreases tree, |tree.children| + 1
  {
    if tree.children != [] {
      VisitedIffChildren(prefix, tree, |tree.children|);
    }
  }

  /** A file whose root object has only named members never meets an empty prefix. */
  lemma NamedRootHasPrefixes(tree: Tree)
    requires tree.children != [] && forall i :: 0 <= i < |tree.children| ==> tree.children[i].0 != ""
    ensures AtLeast(Visited("", tree), 1)
  {
    NamedChildrenHavePrefixes(tree, |tree.children|);
  }

  lemma {:induction false} NamedChildrenHavePrefixes(tree: Tree, n: nat)
    requires n <= |tree.children| && forall i :: 0 <= i < |tree.children| ==> tree.children[i].0 != ""
    ensures AtLeast(VisitedChildren("", tree, n), 1)
  {
    if n > 0 {
      NamedChildrenHavePrefixes(tree, n - 1);
      var child := tree.children[n - 1];
      VisitedBelow(Extend("", child.0), child.1);
      AtLeastAppend(VisitedChildren("", tree, n - 1), VisitedChild("", child), 1, |Extend("", child.0)|);
    }
  }

  lemma {:induction false} VisitedBelow(prefix: string, tree: Tree)
    ensures AtLeast(Visited(prefix, tree), |prefix|)
    decreases tree, |tree.children| + 1
  {
    if tree.children != [] {
      VisitedBelowChildren(prefix, tree, |tree.children|);
    }
  }

  lemma {:induction false} VisitedBelowChildren(prefix: string, tree: Tree, n: nat)
    requires n <= |tree.children|
    ensures AtLeast(VisitedChildren(prefix, tree, n), |prefix|)
    decreases tree, n
  {
    if n > 0 {
      VisitedBelowChildren(prefix, tree, n - 1);
      var child := tree.children[n - 1];
      var path := if child.0 == "" then prefix else Extend(prefix, child.0);
      if child.0 != "" {
        VisitedBelow(path, child.1);
      }
      AtLeastAppend(VisitedChildren(prefix, tree, n - 1), VisitedChild(prefix, child), |prefix|, |path|);
    }
  }
}
