/**
 Which components receive which notifications
 (libs/ServiceComponent/scripts/ServiceComponentParser.py, `parse`, `_validate_messages` and
 `_create_receiver_lists`).

 A component declared `using` another one is the same object under a second name. Objects are
 therefore numbered, and the parser's dictionary maps names, in insertion order, to numbers.
 */
module ReceiverLists {
  import opened DottedNames
  import opened Options
  import opened Sequences

  /** What the checks need of a component: names of requests and inbound and outbound notifications. */
  datatype Component = Component(requests: seq<string>, inbound: seq<string>, outbound: seq<string>)

  /** An entry of the YAML list of components. */
  datatype Declaration = Defined(name: string, component: Component) | Using(name: string, used: string)

  /** An item of the dictionary of components. */
  datatype Entry = Entry(name: string, number: nat)

  // ---------------------------------------------------------------------------------------------
  // The dictionary of components

  predicate HasName(entries: seq<Entry>, name: string) {
    exists i :: 0 <= i < |entries| && entries[i].name == name
  }

  function Lookup(entries: seq<Entry>, name: string): Option<nat>
    decreases |entries|
  {
    if entries == [] then None
    else if entries[0].name == name then Some(entries[0].number)
    else Lookup(entries[1..], name)
  }

  lemma {:induction false} LookupFinds(entries: seq<Entry>, name: string)
    ensures Lookup(entries, name).Some? <==> HasName(entries, name)
    decreases |entries|
  {
    if entries != [] && entries[0].name != name {
      NameInTail(entries, name);
      LookupFinds(entries[1..], name);
    }
  }

  lemma {:induction false} LookupBounded(entries: seq<Entry>, name: string, bound: nat)
    requires forall i :: 0 <= i < |entries| ==> entries[i].number < bound
    ensures Lookup(entries, name).Some? ==> Lookup(entries, name).value < bound
    decreases |entries|
  {
    if entries != [] && entries[0].name != name {
      LookupBounded(entries[1..], name, bound);
    }
  }

  lemma NameInTail(entries: seq<Entry>, name: string)
    requires entries != [] && entries[0].name != name
    ensures HasName(entries, name) <==> HasName(entries[1..], name)
  {
    if HasName(entries, name) {
      var i :| 0 <= i < |entries| && entries[i].name == name;
      assert entries[1..][i - 1].name == name;
    }
  }

  ghost predicate DistinctNames(entries: seq<Entry>) {
    forall i, j :: 0 <= i < j < |entries| ==> entries[i].name != entries[j].name
  }

  /** Assignment to a dictionary key: a known key keeps its place. */
  function Assign(entries: seq<Entry>, name: string, number: nat): seq<Entry>
    decreases |entries|
  {
    if entries == [] then [Entry(name, number)]
    else if entries[0].name == name then [Entry(name, number)] + entries[1..]
    else [entries[0]] + Assign(entries[1..], name, number)
  }

  lemma {:induction false} AssignIsUpdate(entries: seq<Entry>, name: string, number: nat, other: string)
    ensures Lookup(Assign(entries, name, number), other)
         == if other == name then Some(number) else Lookup(entries, other)
    decreases |entries|
  {
    var updated := Assign(entries, name, number);
    if entries == [] {
      assert updated[1..] == [];
    } else if entries[0].name == name {
      assert updated[1..] == entries[1..];
    } else {
      assert updated[1..] == Assign(entries[1..], name, number);
      AssignIsUpdate(entries[1..], name, number, other);
    }
  }

  /** A known name keeps its place, and a new one comes last. */
  lemma {:induction false} AssignKeepsPlaces(entries: seq<Entry>, name: string, number: nat)
    ensures var updated := Assign(entries, name, number);
            && |updated| == |entries| + (if HasName(entries, name) then 0 else 1)
            && (forall i :: 0 <= i < |entries| ==> updated[i].name == entries[i].name)
            && (!HasName(entries, name) ==> updated[|entries|] == Entry(name, number))
    decreases |entries|
  {
    if entries != [] && entries[0].name != name {
      NameInTail(entries, name);
      AssignKeepsPlaces(entries[1..], name, number);
      var rest := Assign(entries[1..], name, number);
      forall i | 0 <= i < |entries| ensures ([entries[0]] + rest)[i].name == entries[i].name {
        if i > 0 { assert ([entries[0]] + rest)[i] == rest[i - 1] && entries[i] == entries[1..][i - 1]; }
      }
    } else if entries != [] {
      assert entries[0].name == name && HasName(entries, name);
    }
  }

  lemma {:induction false} AssignKeepsNamesDistinct(entries: seq<Entry>, name: string, number: nat)
    requires DistinctNames(entries)
    ensures DistinctNames(Assign(entries, name, number))
    ensures forall e :: e in Assign(entries, name, number) ==> e in entries || e == Entry(name, number)
    decreases |entries|
  {
    if entries != [] && entries[0].name != name {
      AssignKeepsNamesDistinct(entries[1..], name, number);
      var rest := Assign(entries[1..], name, number);
      forall j | 0 <= j < |rest| ensures rest[j].name != entries[0].name {
        assert rest[j] in rest;
        if rest[j] in entries[1..] {
          var m :| 0 <= m < |entries[1..]| && entries[1..][m] == rest[j];
          assert entries[m + 1].name != entries[0].name;
        }
      }
    }
  }

  datatype Parsed = Parsed(objects: seq<Component>, entries: seq<Entry>)

  ghost predicate WellFormed(p: Parsed) {
    forall i :: 0 <= i < |p.entries| ==> p.entries[i].number < |p.objects|
  }

  /** Declarations whose name starts with an underscore are templates and skipped. */
  predicate Skipped(d: Declaration) {
    d.name != "" && d.name[0] == '_'
  }

  /** One declaration on top of what is parsed so far; `using` needs a known name. */
  function Declare(p: Parsed, d: Declaration): Result<Parsed, string> {
    if Skipped(d) then Ok(p)
    else
      match d
      case Defined(name, component) => Ok(Parsed(p.objects + [component], Assign(p.entries, name, |p.objects|)))
      case Using(name, used) =>
        match Lookup(p.entries, used)
        case None => Err(used)
        case Some(number) => Ok(p.(entries := Assign(p.entries, name, number)))
  }

  function ParseAll(declarations: seq<Declaration>): Result<Parsed, string>
    decreases |declarations|
  {
    if declarations == [] then Ok(Parsed([], []))
    else
      match ParseAll(declarations[..|declarations| - 1])
      case Err(unknown) => Err(unknown)
      case Ok(p) => Declare(p, declarations[|declarations| - 1])
  }

  /** The loop of `parse`. */
  method ParseDeclarations(declarations: seq<Declaration>) returns (r: Result<Parsed, string>)
    ensures r == ParseAll(declarations)
    ensures r.Ok? ==> WellFormed(r.value) && DistinctNames(r.value.entries)
  {
    var objects: seq<Component> := [];
    var entries: seq<Entry> := [];
    for k := 0 to |declarations|
      invariant ParseAll(declarations[..k]) == Ok(Parsed(objects, entries))
    {
      var d := declarations[k];
      assert declarations[..k + 1][..k] == declarations[..k];
      if Skipped(d) {
        continue;
      }
      match d {
        case Using(name, used) =>
          var number := Lookup(entries, used);
          if number.None? {
            ErrorStays(declarations, k + 1);
            return Err(used);
          }
          entries := Assign(entries, name, number.value);
        case Defined(name, component) =>
          entries := Assign(entries, name, |objects|);
          objects := objects + [component];
      }
    }
    assert declarations[..|declarations|] == declarations;
    ParsedIsWellFormed(declarations);
    return Ok(Parsed(objects, entries));
  }

  lemma {:induction false} ErrorStays(declarations: seq<Declaration>, n: nat)
    requires n <= |declarations| && ParseAll(declarations[..n]).Err?
    ensures ParseAll(declarations) == ParseAll(declarations[..n])
    decreases |declarations|
  {
    if n < |declarations| {
      var before := declarations[..|declarations| - 1];
      assert before[..n] == declarations[..n];
      ErrorStays(before, n);
    } else {
      assert declarations[..n] == declarations;
    }
  }

  lemma {:induction false} ParsedIsWellFormed(declarations: seq<Declaration>)
    ensures var r := ParseAll(declarations);
            r.Ok? ==> WellFormed(r.value) && DistinctNames(r.value.entries)
    decreases |declarations|
  {
    if declarations != [] {
      var before, d := declarations[..|declarations| - 1], declarations[|declarations| - 1];
      ParsedIsWellFormed(before);
      if ParseAll(before).Ok? && !Skipped(d) {
        DeclareKeepsWellFormed(ParseAll(before).value, d);
      }
    }
  }

  lemma DeclareKeepsWellFormed(p: Parsed, d: Declaration)
    requires WellFormed(p) && DistinctNames(p.entries)
    ensures Declare(p, d).Ok? ==> WellFormed(Declare(p, d).value) && DistinctNames(Declare(p, d).value.entries)
  {
    if Declare(p, d).Ok? && !Skipped(d) {
      var number := if d.Defined? then |p.objects| else Lookup(p.entries, d.used).value;
      var p' := Declare(p, d).value;
      if d.Using? { LookupBounded(p.entries, d.used, |p.objects|); }
      AssignKeepsNamesDistinct(p.entries, d.name, number);
      forall i | 0 <= i < |p'.entries| ensures p'.entries[i].number < |p'.objects| {
        assert p'.entries[i] in p'.entries;
      }
    }
  }

  /** One of the declarations gives this name. */
  ghost predicate Declares(declarations: seq<Declaration>, name: string) {
    exists i :: 0 <= i < |declarations| && declarations[i].name == name && !Skipped(declarations[i])
  }

  lemma DeclaresOneMore(declarations: seq<Declaration>, d: Declaration, name: string)
    ensures Declares(declarations + [d], name) <==> Declares(declarations, name) || (d.name == name && !Skipped(d))
  {
    var all := declarations + [d];
    if Declares(declarations, name) {
      var i :| 0 <= i < |declarations| && declarations[i].name == name && !Skipped(declarations[i]);
      assert all[i].name == name;
    }
    if d.name == name && !Skipped(d) { assert all[|declarations|].name == name; }
  }

  /** The dictionary knows exactly the declared names that do not start with an underscore. */
  lemma KnownIffDeclared(declarations: seq<Declaration>, name: string)
    requires ParseAll(declarations).Ok?
    ensures Lookup(ParseAll(declarations).value.entries, name).Some? <==>
            (name != "" ==> name[0] != '_') && exists i :: 0 <= i < |declarations| && declarations[i].name == name
  {
    KnownIffDeclares(declarations, name);
  }

  lemma {:induction false} KnownIffDeclares(declarations: seq<Declaration>, name: string)
    requires ParseAll(declarations).Ok?
    ensures Lookup(ParseAll(declarations).value.entries, name).Some? <==> Declares(declarations, name)
    decreases |declarations|
  {
    if declarations != [] {
      var before, d := declarations[..|declarations| - 1], declarations[|declarations| - 1];
      KnownIffDeclares(before, name);
      assert declarations == before + [d];
      DeclaresOneMore(before, d, name);
      var p := ParseAll(before).value;
      if !Skipped(d) {
        AssignIsUpdate(p.entries, d.name, if d.Defined? then |p.objects| else Lookup(p.entries, d.used).value, name);
      }
    }
  }

  /** The declaration refers to a component that is not declared before it. */
  ghost predicate Dangling(declarations: seq<Declaration>, i: nat)
    requires i < |declarations|
  {
    var d := declarations[i];
    !Skipped(d) && d.Using? && !Declares(declarations[..i], d.used)
  }

  /**
   The loop fails exactly on a `using` of a name that no earlier declaration gives, or that starts with an
   underscore; unless the declaration is itself skipped for its name.
   */
  lemma RejectedIffDangling(declarations: seq<Declaration>)
    ensures ParseAll(declarations).Err? <==>
            exists i :: 0 <= i < |declarations|
              && declarations[i].Using? && (declarations[i].name != "" ==> declarations[i].name[0] != '_')
              && var used := declarations[i].used;
              (used != "" && used[0] == '_') || forall j :: 0 <= j < i ==> declarations[j].name != used
  {
    RejectedIfDangling(declarations);
    forall i | 0 <= i < |declarations| && declarations[i].Using?
      ensures Declares(declarations[..i], declarations[i].used) <==>
              !((declarations[i].used != "" && declarations[i].used[0] == '_') ||
                forall j :: 0 <= j < i ==> declarations[j].name != declarations[i].used)
    {
      if j :| 0 <= j < i && declarations[j].name == declarations[i].used {
        assert declarations[..i][j].name == declarations[i].used;
      }
    }
    if i :| 0 <= i < |declarations| && Dangling(declarations, i) {
      assert declarations[i].Using?;
    }
    if i :| 0 <= i < |declarations|
              && declarations[i].Using? && (declarations[i].name != "" ==> declarations[i].name[0] != '_')
              && var used := declarations[i].used;
              (used != "" && used[0] == '_') || forall j :: 0 <= j < i ==> declarations[j].name != used
    {
      assert Dangling(declarations, i);
    }
  }

  lemma {:induction false} RejectedIfDangling(declarations: seq<Declaration>)
    ensures ParseAll(declarations).Err? <==> exists i :: 0 <= i < |declarations| && Dangling(declarations, i)
    decreases |declarations|
  {
    if declarations != [] {
      var n := |declarations| - 1;
      var before := declarations[..n];
      RejectedIfDangling(before);
      forall i | 0 <= i < n ensures Dangling(before, i) <==> Dangling(declarations, i) {
        assert before[..i] == declarations[..i];
      }
      if ParseAll(before).Ok? {
        if declarations[n].Using? { KnownIffDeclares(before, declarations[n].used); }
        assert Dangling(declarations, n) <==> ParseAll(declarations).Err?;
      } else {
        var i :| 0 <= i < n && Dangling(before, i);
        assert Dangling(declarations, i);
      }
    }
  }

  /**
   What a name stands for in the end is decided by its last declaration: the component defined there,
   or the very object that the used name stood for at that point.
   */
  lemma {:induction false} LastDeclarationCounts(declarations: seq<Declaration>, k: nat)
    requires k < |declarations| && ParseAll(declarations).Ok?
    requires declarations[k].name != "" ==> declarations[k].name[0] != '_'
    requires forall j :: k < j < |declarations| ==> declarations[j].name != declarations[k].name
    ensures ParseAll(declarations[..k]).Ok?
    ensures var before, p, d := ParseAll(declarations[..k]).value, ParseAll(declarations).value, declarations[k];
            match d
            case Defined(name, component) =>
              && Lookup(p.entries, name) == Some(|before.objects|)
              && |before.objects| < |p.objects| && p.objects[|before.objects|] == component
            case Using(name, used) =>
              Lookup(p.entries, name) == Lookup(before.entries, used) && Lookup(p.entries, name).Some?
    decreases |declarations|
  {
    var n := |declarations| - 1;
    var front, d := declarations[..n], declarations[n];
    var p := ParseAll(front).value;
    if k < n {
      assert front[..k] == declarations[..k] && front[k] == declarations[k];
      LastDeclarationCounts(front, k);
    }
    if !Skipped(d) {
      AssignIsUpdate(p.entries, d.name, if d.Defined? then |p.objects| else Lookup(p.entries, d.used).value,
                     declarations[k].name);
    }
  }

  // ---------------------------------------------------------------------------------------------
  // Resolving notifications

  /** A publisher object and the position of one of its outbound notifications. */
  datatype Target = Target(number: nat, index: nat)

  function IndexOf(names: seq<string>, name: string): (r: Option<nat>)
    ensures r.Some? ==> r.value < |names| && names[r.value] == name && name !in names[..r.value]
    ensures r.None? <==> name !in names
    decreases |names|
  {
    if names == [] then None
    else
      match IndexOf(names[..|names| - 1], name)
      case Some(i) =>
        assert names[..|names| - 1][..i] == names[..i];
        Some(i)
      case None =>
        assert names == names[..|names| - 1] + [names[|names| - 1]];
        if names[|names| - 1] == name then Some(|names| - 1) else None
  }

  /** The first outbound notification of that name of the component of that name. */
  function Resolve(p: Parsed, notification: string): (r: Option<Target>)
    requires WellFormed(p)
    ensures r.Some? ==> r.value.number < |p.objects| && r.value.index < |p.objects[r.value.number].outbound|
  {
    var chunks := SplitDot(notification);
    if |chunks| != 2 then None
    else
      LookupBounded(p.entries, chunks[0], |p.objects|);
      match Lookup(p.entries, chunks[0])
      case None => None
      case Some(number) =>
        match IndexOf(p.objects[number].outbound, chunks[1])
        case None => None
        case Some(index) => Some(Target(number, index))
  }

  ghost predicate ComponentIsValid(p: Parsed, c: Component)
    requires WellFormed(p)
  {
    && (forall n :: n in c.inbound ==> Resolve(p, n).Some?)
    && (forall n :: n in c.requests ==> '.' !in n)
    && (forall n :: n in c.outbound ==> '.' !in n)
  }

  ghost predicate Validated(p: Parsed)
    requires WellFormed(p)
  {
    forall i :: 0 <= i < |p.entries| ==> ComponentIsValid(p, p.objects[p.entries[i].number])
  }

  method ValidateMessages(p: Parsed) returns (ok: bool)
    requires WellFormed(p)
    ensures ok <==> Validated(p)
    ensures ok <==> forall i :: 0 <= i < |p.entries| ==>
                      var c := p.objects[p.entries[i].number];
                      && (forall n :: n in c.inbound ==> Resolve(p, n).Some?)
                      && (forall n :: n in c.requests + c.outbound ==> '.' !in n)
  {
    for i := 0 to |p.entries|
      invariant forall k :: 0 <= k < i ==> ComponentIsValid(p, p.objects[p.entries[k].number])
    {
      var c := p.objects[p.entries[i].number];
      for k := 0 to |c.inbound|
        invariant forall n :: n in c.inbound[..k] ==> Resolve(p, n).Some?
      {
        assert c.inbound[k] in c.inbound;
        var chunks := SplitDot(c.inbound[k]);
        if |chunks| != 2 {
          return false;
        }
        var number := Lookup(p.entries, chunks[0]);
        LookupBounded(p.entries, chunks[0], |p.objects|);
        if number.None? || chunks[1] !in p.objects[number.value].outbound {
          return false;
        }
        assert c.inbound[..k + 1] == c.inbound[..k] + [c.inbound[k]];
      }
      assert c.inbound[..|c.inbound|] == c.inbound;
      if (exists n :: n in c.requests && '.' in n) || (exists n :: n in c.outbound && '.' in n) {
        return false;
      }
    }
    return true;
  }

  // ---------------------------------------------------------------------------------------------
  // Deliveries: who is appended where, in order

  datatype Delivery = Delivery(target: Target, receiver: string)

  /** The deliveries of the first n inbound notifications of a component, under one of its names. */
  function ComponentDeliveries(p: Parsed, name: string, inbound: seq<string>, n: nat): seq<Delivery>
    requires WellFormed(p) && n <= |inbound|
  {
    if n == 0 then []
    else
      var before := ComponentDeliveries(p, name, inbound, n - 1);
      match Resolve(p, inbound[n - 1])
      case None => before
      case Some(target) => before + [Delivery(target, name)]
  }

  function Inbound(p: Parsed, e: Entry): seq<string>
    requires e.number < |p.objects|
  {
    p.objects[e.number].inbound
  }

  /** The deliveries of the first n entries of the dictionary. */
  function Deliveries(p: Parsed, n: nat): seq<Delivery>
    requires WellFormed(p) && n <= |p.entries|
  {
    if n == 0 then []
    else
      var e := p.entries[n - 1];
      Deliveries(p, n - 1) + ComponentDeliveries(p, e.name, Inbound(p, e), |Inbound(p, e)|)
  }

  lemma DeliveriesStep(p: Parsed, n: nat)
    requires WellFormed(p) && n < |p.entries|
    ensures var e := p.entries[n];
            && e.number < |p.objects|
            && Deliveries(p, n + 1) == Deliveries(p, n) + ComponentDeliveries(p, e.name, Inbound(p, e), |Inbound(p, e)|)
  {
  }

  /** The receivers delivered to one target, in order. */
  function ReceiversAt(deliveries: seq<Delivery>, target: Target): seq<string>
    decreases |deliveries|
  {
    if deliveries == [] then []
    else
      var last := deliveries[|deliveries| - 1];
      var before := ReceiversAt(deliveries[..|deliveries| - 1], target);
      if last.target == target then before + [last.receiver] else before
  }

  function InboundCount(p: Parsed, n: nat): nat
    requires WellFormed(p) && n <= |p.entries|
  {
    if n == 0 then 0 else InboundCount(p, n - 1) + |Inbound(p, p.entries[n - 1])|
  }

  /** The first n inbound notifications can be resolved. */
  ghost predicate Resolved(p: Parsed, inbound: seq<string>, n: nat)
    requires WellFormed(p) && n <= |inbound|
  {
    n == 0 || (Resolved(p, inbound, n - 1) && Resolve(p, inbound[n - 1]).Some?)
  }

  ghost predicate AllResolve(p: Parsed, inbound: seq<string>)
    requires WellFormed(p)
  {
    Resolved(p, inbound, |inbound|)
  }

  lemma {:induction false} ResolvedPrefix(p: Parsed, inbound: seq<string>, k: nat, n: nat)
    requires WellFormed(p) && k <= n <= |inbound| && Resolved(p, inbound, n)
    ensures Resolved(p, inbound, k)
  {
    if k < n { ResolvedPrefix(p, inbound, k, n - 1); }
  }

  lemma {:induction false} ValidInboundResolves(p: Parsed, inbound: seq<string>, n: nat)
    requires WellFormed(p) && n <= |inbound| && forall x :: x in inbound ==> Resolve(p, x).Some?
    ensures Resolved(p, inbound, n)
  {
    if n > 0 {
      ValidInboundResolves(p, inbound, n - 1);
      assert inbound[n - 1] in inbound;
    }
  }

  lemma ValidatedResolves(p: Parsed, i: nat)
    requires WellFormed(p) && Validated(p) && i < |p.entries|
    ensures AllResolve(p, Inbound(p, p.entries[i]))
  {
    assert ComponentIsValid(p, p.objects[p.entries[i].number]);
    ValidInboundResolves(p, Inbound(p, p.entries[i]), |Inbound(p, p.entries[i])|);
  }

  lemma UnresolvedFails(p: Parsed, inbound: seq<string>, k: nat)
    requires WellFormed(p) && k < |inbound| && Resolve(p, inbound[k]).None?
    ensures !AllResolve(p, inbound)
  {
    if AllResolve(p, inbound) { ResolvedPrefix(p, inbound, k + 1, |inbound|); }
  }

  lemma UnresolvedIsInvalid(p: Parsed, i: nat)
    requires WellFormed(p) && i < |p.entries| && !AllResolve(p, Inbound(p, p.entries[i]))
    ensures !Validated(p)
  {
    if Validated(p) { ValidatedResolves(p, i); }
  }

  lemma {:induction false} AllDelivered(p: Parsed, name: string, inbound: seq<string>, n: nat)
    requires WellFormed(p) && n <= |inbound| && Resolved(p, inbound, n)
    ensures |ComponentDeliveries(p, name, inbound, n)| == n
  {
    if n > 0 { AllDelivered(p, name, inbound, n - 1); }
  }

  lemma {:induction false} OneDeliveryPerInbound(p: Parsed, n: nat)
    requires WellFormed(p) && n <= |p.entries|
    requires forall i :: 0 <= i < |p.entries| ==> AllResolve(p, Inbound(p, p.entries[i]))
    ensures |Deliveries(p, n)| == InboundCount(p, n)
  {
    if n > 0 {
      OneDeliveryPerInbound(p, n - 1);
      var e := p.entries[n - 1];
      AllDelivered(p, e.name, Inbound(p, e), |Inbound(p, e)|);
    }
  }

  // ---------------------------------------------------------------------------------------------
  // The receiver lists

  /** One list of receivers per outbound notification of each object. */
  type Lists = seq<seq<seq<string>>>

  ghost predicate Shaped(lists: Lists, p: Parsed) {
    |lists| == |p.objects| && forall o :: 0 <= o < |lists| ==> |lists[o]| == |p.objects[o].outbound|
  }

  function Append(lists: Lists, d: Delivery): Lists {
    var Target(o, i) := d.target;
    if o < |lists| && i < |lists[o]| then lists[o := lists[o][i := lists[o][i] + [d.receiver]]] else lists
  }

  function AppendAll(lists: Lists, deliveries: seq<Delivery>): Lists
    decreases |deliveries|
  {
    if deliveries == [] then lists
    else Append(AppendAll(lists, deliveries[..|deliveries| - 1]), deliveries[|deliveries| - 1])
  }

  lemma AppendAllOneMore(lists: Lists, deliveries: seq<Delivery>, d: Delivery)
    ensures AppendAll(lists, deliveries + [d]) == Append(AppendAll(lists, deliveries), d)
  {
    assert (deliveries + [d])[..|deliveries|] == deliveries;
  }

  function RowTotal(row: seq<seq<string>>): nat
    decreases |row|
  {
    if row == [] then 0 else RowTotal(row[..|row| - 1]) + |row[|row| - 1]|
  }

  function Total(lists: Lists): nat
    decreases |lists|
  {
    if lists == [] then 0 else Total(lists[..|lists| - 1]) + RowTotal(lists[|lists| - 1])
  }

  lemma {:induction false} RowGrows(row: seq<seq<string>>, i: nat, name: string)
    requires i < |row|
    ensures RowTotal(row[i := row[i] + [name]]) == RowTotal(row) + 1
    decreases |row|
  {
    var n := |row| - 1;
    var row' := row[i := row[i] + [name]];
    if i == n {
      assert row'[..n] == row[..n];
    } else {
      assert row'[..n] == row[..n][i := row[..n][i] + [name]];
      RowGrows(row[..n], i, name);
    }
  }

  lemma {:induction false} TotalGrows(lists: Lists, d: Delivery)
    requires d.target.number < |lists| && d.target.index < |lists[d.target.number]|
    ensures Total(Append(lists, d)) == Total(lists) + 1
    decreases |lists|
  {
    var n := |lists| - 1;
    var lists' := Append(lists, d);
    if d.target.number == n {
      assert lists'[..n] == lists[..n];
      RowGrows(lists[n], d.target.index, d.receiver);
    } else {
      assert lists'[..n] == Append(lists[..n], d);
      TotalGrows(lists[..n], d);
    }
  }

  /** Every delivery goes to an existing list. */
  ghost predicate Fit(deliveries: seq<Delivery>, p: Parsed) {
    forall k :: 0 <= k < |deliveries| ==>
      var t := deliveries[k].target;
      t.number < |p.objects| && t.index < |p.objects[t.number].outbound|
  }

  lemma {:induction false} ComponentDeliveriesFit(p: Parsed, name: string, inbound: seq<string>, n: nat)
    requires WellFormed(p) && n <= |inbound|
    ensures Fit(ComponentDeliveries(p, name, inbound, n), p)
  {
    if n > 0 { ComponentDeliveriesFit(p, name, inbound, n - 1); }
  }

  lemma {:induction false} DeliveriesFit(p: Parsed, n: nat)
    requires WellFormed(p) && n <= |p.entries|
    ensures Fit(Deliveries(p, n), p)
  {
    if n > 0 {
      DeliveriesFit(p, n - 1);
      var e := p.entries[n - 1];
      ComponentDeliveriesFit(p, e.name, Inbound(p, e), |Inbound(p, e)|);
    }
  }

  /** The lists after some deliveries: each has grown by exactly its own receivers, in order, and nothing is lost. */
  ghost predicate Delivered(lists: Lists, before: Lists, p: Parsed, deliveries: seq<Delivery>) {
    && Shaped(lists, p) && Shaped(before, p)
    && (forall o, i :: 0 <= o < |lists| && 0 <= i < |lists[o]| ==>
          lists[o][i] == before[o][i] + ReceiversAt(deliveries, Target(o, i)))
    && Total(lists) == Total(before) + |deliveries|
  }

  lemma DeliverOne(lists: Lists, before: Lists, p: Parsed, deliveries: seq<Delivery>, d: Delivery)
    requires Delivered(lists, before, p, deliveries)
    requires d.target.number < |lists| && d.target.index < |lists[d.target.number]|
    ensures Delivered(Append(lists, d), before, p, deliveries + [d])
  {
    var lists' := Append(lists, d);
    TotalGrows(lists, d);
    assert (deliveries + [d])[..|deliveries|] == deliveries;
    forall o, i | 0 <= o < |lists'| && 0 <= i < |lists'[o]|
      ensures lists'[o][i] == before[o][i] + ReceiversAt(deliveries + [d], Target(o, i))
    {
      if Target(o, i) == d.target {
        assert lists'[o][i] == lists[o][i] + [d.receiver];
      } else {
        assert lists'[o][i] == lists[o][i];
      }
    }
  }

  lemma {:induction false} AppendingDelivers(before: Lists, p: Parsed, deliveries: seq<Delivery>)
    requires Shaped(before, p) && Fit(deliveries, p)
    ensures Delivered(AppendAll(before, deliveries), before, p, deliveries)
    decreases |deliveries|
  {
    if deliveries != [] {
      var n := |deliveries| - 1;
      AppendingDelivers(before, p, deliveries[..n]);
      DeliverOne(AppendAll(before, deliveries[..n]), before, p, deliveries[..n], deliveries[n]);
      assert deliveries[..n] + [deliveries[n]] == deliveries;
    }
  }

  /**
   Main result: from validated components, each list ends up with, in the order of the dictionary, the
   name of every component once per inbound notification of its that resolves to that publisher
   object, under whatever name; and there are as many receivers as inbound notifications.
   */
  lemma EveryListIsComplete(before: Lists, p: Parsed)
    requires WellFormed(p) && Validated(p) && Shaped(before, p)
    ensures var lists := AppendAll(before, Deliveries(p, |p.entries|));
            && Delivered(lists, before, p, Deliveries(p, |p.entries|))
            && Total(lists) == Total(before) + InboundCount(p, |p.entries|)
  {
    forall i | 0 <= i < |p.entries| ensures AllResolve(p, Inbound(p, p.entries[i])) {
      ValidatedResolves(p, i);
    }
    OneDeliveryPerInbound(p, |p.entries|);
    DeliveriesFit(p, |p.entries|);
    AppendingDelivers(before, p, Deliveries(p, |p.entries|));
  }

  class ReceiverListBuilder {
    const parsed: Parsed
    var receivers: Lists

    /** The parser creates every outbound notification with an empty list. */
    constructor (p: Parsed)
      requires WellFormed(p)
      ensures parsed == p && Shaped(receivers, p)
      ensures forall o, i :: 0 <= o < |receivers| && 0 <= i < |receivers[o]| ==> receivers[o][i] == []
    {
      parsed := p;
      receivers := seq(|p.objects|, o requires 0 <= o < |p.objects| => seq(|p.objects[o].outbound|, _ => []));
    }

    /**
     After validation this never fails. (Before it, a name with another number of dots, an unknown
     component or an unknown notification would raise an exception.)
     */
    method CreateReceiverLists() returns (ok: bool)
      requires WellFormed(parsed)
      modifies this
      ensures Validated(parsed) ==> ok
      ensures ok ==> receivers == AppendAll(old(receivers), Deliveries(parsed, |parsed.entries|))
    {
      ghost var before := receivers;
      for n := 0 to |parsed.entries|
        invariant receivers == AppendAll(before, Deliveries(parsed, n))
      {
        ok := DeliverEntry(n, before);
        if !ok {
          UnresolvedIsInvalid(parsed, n);
          return;
        }
      }
      return true;
    }

    /** The n-th entry of the dictionary. */
    method DeliverEntry(n: nat, ghost before: Lists) returns (ok: bool)
      requires WellFormed(parsed) && n < |parsed.entries|
      requires receivers == AppendAll(before, Deliveries(parsed, n))
      modifies this
      ensures ok <==> AllResolve(parsed, Inbound(parsed, parsed.entries[n]))
      ensures ok ==> receivers == AppendAll(before, Deliveries(parsed, n + 1))
    {
      DeliveriesStep(parsed, n);
      var e := parsed.entries[n];
      ok := DeliverComponent(e.name, Inbound(parsed, e), before, Deliveries(parsed, n), Deliveries(parsed, n + 1));
    }

    /** The inner loop: the inbound notifications of one entry, which take the deliveries from `soFar` to `upTo`. */
    method DeliverComponent(
        name: string, inbound: seq<string>, ghost before: Lists, ghost soFar: seq<Delivery>, ghost upTo: seq<Delivery>)
      returns (ok: bool)
      requires WellFormed(parsed)
      requires receivers == AppendAll(before, soFar)
      requires upTo == soFar + ComponentDeliveries(parsed, name, inbound, |inbound|)
      modifies this
      ensures ok <==> AllResolve(parsed, inbound)
      ensures ok ==> receivers == AppendAll(before, upTo)
    {
      ghost var done := soFar;
      for k := 0 to |inbound|
        invariant Resolved(parsed, inbound, k)
        invariant done == soFar + ComponentDeliveries(parsed, name, inbound, k)
        invariant receivers == AppendAll(before, done)
      {
        ok := DeliverNotification(name, inbound[k]);
        if !ok {
          UnresolvedFails(parsed, inbound, k);
          return;
        }
        done := OneMoreReceiver(before, soFar, done, parsed, name, inbound, k);
      }
      return true;
    }

    /** One notification: split its name, look up the publisher, append to the first outbound one of that name. */
    method DeliverNotification(name: string, notification: string) returns (ok: bool)
      requires WellFormed(parsed)
      modifies this
      ensures ok <==> Resolve(parsed, notification).Some?
      ensures receivers ==
              if ok then Append(old(receivers), Delivery(Resolve(parsed, notification).value, name)) else old(receivers)
    {
      var chunks := SplitDot(notification);
      if |chunks| != 2 {
        return false;
      }
      var publisher := Lookup(parsed.entries, chunks[0]);
      LookupBounded(parsed.entries, chunks[0], |parsed.objects|);
      if publisher.None? {
        return false;
      }
      var index := IndexOf(parsed.objects[publisher.value].outbound, chunks[1]);
      if index.None? {
        return false;
      }
      receivers := Append(receivers, Delivery(Target(publisher.value, index.value), name));
      return true;
    }
  }

  lemma OneMoreReceiver(
      before: Lists, soFar: seq<Delivery>, done: seq<Delivery>, p: Parsed, name: string, inbound: seq<string>, k: nat)
    returns (more: seq<Delivery>)
    requires WellFormed(p) && k < |inbound| && Resolve(p, inbound[k]).Some?
    requires done == soFar + ComponentDeliveries(p, name, inbound, k)
    ensures more == soFar + ComponentDeliveries(p, name, inbound, k + 1)
    ensures AppendAll(before, more) == Append(AppendAll(before, done), Delivery(Resolve(p, inbound[k]).value, name))
  {
    var d := Delivery(Resolve(p, inbound[k]).value, name);
    more := done + [d];
    AppendAllOneMore(before, done, d);
    AppendIsAssociative(soFar, ComponentDeliveries(p, name, inbound, k), [d]);
  }

  /** With distinct outbound names, a target receives exactly the notifications that name it. */
  lemma TargetIsNamed(p: Parsed, notification: string, target: Target)
    requires WellFormed(p) && target.number < |p.objects| && target.index < |p.objects[target.number].outbound|
    requires var names := p.objects[target.number].outbound;
             forall i, j :: 0 <= i < j < |names| ==> names[i] != names[j]
    ensures Resolve(p, notification) == Some(target) <==>
            var chunks := SplitDot(notification);
            && |chunks| == 2
            && Lookup(p.entries, chunks[0]) == Some(target.number)
            && chunks[1] == p.objects[target.number].outbound[target.index]
  {
  }

  lemma {:induction false} LookupAt(entries: seq<Entry>, i: nat)
    requires DistinctNames(entries) && i < |entries|
    ensures Lookup(entries, entries[i].name) == Some(entries[i].number)
    decreases i
  {
    if i > 0 { LookupAt(entries[1..], i - 1); }
  }

  lemma {:induction false} LookupIsAnEntry(entries: seq<Entry>, name: string)
    requires Lookup(entries, name).Some?
    ensures exists i :: 0 <= i < |entries| && entries[i] == Entry(name, Lookup(entries, name).value)
    decreases |entries|
  {
    if entries[0].name == name {
      assert entries[0] == Entry(name, entries[0].number);
    } else {
      LookupIsAnEntry(entries[1..], name);
      var i :| 0 <= i < |entries[1..]| && entries[1..][i] == Entry(name, Lookup(entries, name).value);
      assert entries[i + 1] == Entry(name, Lookup(entries, name).value);
    }
  }

  lemma TwoChunks(a: string, b: string)
    requires '.' !in a && '.' !in b
    ensures SplitDot(a + "." + b) == [a, b]
  {
    assert JoinDot([a, b]) == a + "." + b by { assert [a, b][..1] == [a]; }
    SplitInvertsJoin([a, b]);
  }

  lemma JoinedAgain(notification: string)
    requires |SplitDot(notification)| == 2
    ensures var chunks := SplitDot(notification);
            notification == chunks[0] + "." + chunks[1] && '.' !in chunks[0] && '.' !in chunks[1]
  {
    SplitRebuilds(notification);
    assert SplitDot(notification)[..1] == [SplitDot(notification)[0]];
  }

  /**
   Main result on resolution: a notification goes to an outbound notification iff it is a name of its
   object, a dot, and its name, both without dots, and it is the first of that name.
   */
  lemma ResolvesIffJoined(p: Parsed, notification: string, target: Target)
    requires WellFormed(p) && DistinctNames(p.entries)
    requires target.number < |p.objects| && target.index < |p.objects[target.number].outbound|
    ensures Resolve(p, notification) == Some(target) <==>
            var outbound := p.objects[target.number].outbound;
            && '.' !in outbound[target.index]
            && (forall k :: 0 <= k < target.index ==> outbound[k] != outbound[target.index])
            && exists i :: 0 <= i < |p.entries| && p.entries[i].number == target.number && '.' !in p.entries[i].name
                 && notification == p.entries[i].name + "." + outbound[target.index]
  {
    var outbound := p.objects[target.number].outbound;
    if Resolve(p, notification) == Some(target) {
      JoinedAgain(notification);
      LookupIsAnEntry(p.entries, SplitDot(notification)[0]);
      forall k | 0 <= k < target.index ensures outbound[k] != outbound[target.index] {
        assert outbound[k] == outbound[..target.index][k];
      }
    }
    if i :| 0 <= i < |p.entries| && p.entries[i].number == target.number && '.' !in p.entries[i].name &&
            notification == p.entries[i].name + "." + outbound[target.index]
    {
      if '.' !in outbound[target.index] && forall k :: 0 <= k < target.index ==> outbound[k] != outbound[target.index] {
        TwoChunks(p.entries[i].name, outbound[target.index]);
        LookupAt(p.entries, i);
        assert outbound[target.index] !in outbound[..target.index];
        ResolvesIffNamed(p, notification, target);
      }
    }
  }

  // ---------------------------------------------------------------------------------------------
  // From the declarations to the lists

  predicate IsTarget(p: Parsed, target: Target) {
    target.number < |p.objects| && target.index < |p.objects[target.number].outbound|
  }

  /** The notification is publisher-dot-name: a name of the target's object, and that of its first such outbound one. */
  predicate Names(p: Parsed, notification: string, target: Target)
    requires IsTarget(p, target)
  {
    var chunks, outbound := SplitDot(notification), p.objects[target.number].outbound;
    && |chunks| == 2
    && Lookup(p.entries, chunks[0]) == Some(target.number)
    && chunks[1] == outbound[target.index] && chunks[1] !in outbound[..target.index]
  }

  lemma ResolvesIffNamed(p: Parsed, notification: string, target: Target)
    requires WellFormed(p) && IsTarget(p, target)
    ensures Resolve(p, notification) == Some(target) <==> Names(p, notification, target)
  {
  }

  function CountNamed(p: Parsed, inbound: seq<string>, target: Target, n: nat): nat
    requires IsTarget(p, target) && n <= |inbound|
  {
    if n == 0 then 0 else CountNamed(p, inbound, target, n - 1) + if Names(p, inbound[n - 1], target) then 1 else 0
  }

  function Repeated(name: string, n: nat): seq<string> {
    if n == 0 then [] else Repeated(name, n - 1) + [name]
  }

  /** Entry by entry, its name as often as its inbound notifications name the target. */
  function Receivers(p: Parsed, target: Target, n: nat): seq<string>
    requires WellFormed(p) && IsTarget(p, target) && n <= |p.entries|
  {
    if n == 0 then []
    else
      var e := p.entries[n - 1];
      Receivers(p, target, n - 1) + Repeated(e.name, CountNamed(p, Inbound(p, e), target, |Inbound(p, e)|))
  }

  lemma ReceiversAtOneMore(deliveries: seq<Delivery>, d: Delivery, target: Target)
    ensures ReceiversAt(deliveries + [d], target)
         == ReceiversAt(deliveries, target) + if d.target == target then [d.receiver] else []
  {
    assert (deliveries + [d])[..|deliveries|] == deliveries;
  }

  lemma {:induction false} ReceiversOfComponent(
      p: Parsed, soFar: seq<Delivery>, name: string, inbound: seq<string>, target: Target, n: nat)
    requires WellFormed(p) && IsTarget(p, target) && n <= |inbound|
    ensures ReceiversAt(soFar + ComponentDeliveries(p, name, inbound, n), target)
         == ReceiversAt(soFar, target) + Repeated(name, CountNamed(p, inbound, target, n))
  {
    if n == 0 {
      assert soFar + [] == soFar;
    } else {
      ReceiversOfComponent(p, soFar, name, inbound, target, n - 1);
      ResolvesIffNamed(p, inbound[n - 1], target);
      if Resolve(p, inbound[n - 1]).Some? {
        var d := Delivery(Resolve(p, inbound[n - 1]).value, name);
        ReceiversOfOneMore(
          soFar, ComponentDeliveries(p, name, inbound, n - 1), d, target, CountNamed(p, inbound, target, n - 1));
      }
    }
  }

  lemma ReceiversOfOneMore(soFar: seq<Delivery>, delivered: seq<Delivery>, d: Delivery, target: Target, count: nat)
    requires ReceiversAt(soFar + delivered, target) == ReceiversAt(soFar, target) + Repeated(d.receiver, count)
    ensures ReceiversAt(soFar + (delivered + [d]), target)
         == ReceiversAt(soFar, target) + Repeated(d.receiver, if d.target == target then count + 1 else count)
  {
    AppendIsAssociative(soFar, delivered, [d]);
    ReceiversAtOneMore(soFar + delivered, d, target);
    AppendIsAssociative(ReceiversAt(soFar, target), Repeated(d.receiver, count), [d.receiver]);
  }

  /** The deliveries bring each target its receivers. */
  lemma {:induction false} DeliveriesAreTheReceivers(p: Parsed, target: Target, n: nat)
    requires WellFormed(p) && IsTarget(p, target) && n <= |p.entries|
    ensures ReceiversAt(Deliveries(p, n), target) == Receivers(p, target, n)
  {
    if n > 0 {
      DeliveriesAreTheReceivers(p, target, n - 1);
      var e := p.entries[n - 1];
      ReceiversOfComponent(p, Deliveries(p, n - 1), e.name, Inbound(p, e), target, |Inbound(p, e)|);
    }
  }

  predicate GoesTo(p: Parsed, notification: string, target: Target)
    requires WellFormed(p)
  {
    Resolve(p, notification) == Some(target)
  }

  /** Which of the first n notifications go to the target. */
  function Going(p: Parsed, inbound: seq<string>, target: Target, n: nat): set<nat>
    requires WellFormed(p) && n <= |inbound|
  {
    set k: nat | k < n && GoesTo(p, inbound[k], target)
  }

  lemma OneMoreGoing(p: Parsed, inbound: seq<string>, target: Target, n: nat)
    requires WellFormed(p) && n < |inbound|
    ensures |Going(p, inbound, target, n + 1)|
         == |Going(p, inbound, target, n)| + if GoesTo(p, inbound[n], target) then 1 else 0
  {
    if GoesTo(p, inbound[n], target) {
      assert Going(p, inbound, target, n + 1) == Going(p, inbound, target, n) + {n};
    } else {
      assert Going(p, inbound, target, n + 1) == Going(p, inbound, target, n);
    }
  }

  lemma {:induction false} CountNamedCounts(p: Parsed, inbound: seq<string>, target: Target, n: nat)
    requires WellFormed(p) && IsTarget(p, target) && n <= |inbound|
    ensures CountNamed(p, inbound, target, n) == |Going(p, inbound, target, n)|
  {
    if n == 0 {
      assert Going(p, inbound, target, 0) == {};
    } else {
      CountNamedCounts(p, inbound, target, n - 1);
      OneMoreGoing(p, inbound, target, n - 1);
      ResolvesIffNamed(p, inbound[n - 1], target);
    }
  }

  lemma {:induction false} RepeatedIsTheName(name: string, n: nat)
    ensures forall i :: 0 <= i < |Repeated(name, n)| ==> Repeated(name, n)[i] == name
  {
    if n > 0 { RepeatedIsTheName(name, n - 1); }
  }

  function CountOf(p: Parsed, target: Target, e: nat): nat
    requires WellFormed(p) && IsTarget(p, target) && e < |p.entries|
  {
    CountNamed(p, Inbound(p, p.entries[e]), target, |Inbound(p, p.entries[e])|)
  }

  /** How often the name stands in the list. */
  function Occurrences(list: seq<string>, name: string): nat
    decreases |list|
  {
    if list == [] then 0
    else Occurrences(list[..|list| - 1], name) + if list[|list| - 1] == name then 1 else 0
  }

  lemma {:induction false} OccurrencesAreTheMultiset(list: seq<string>, name: string)
    ensures Occurrences(list, name) == multiset(list)[name]
    decreases |list|
  {
    if list != [] {
      OccurrencesAreTheMultiset(list[..|list| - 1], name);
      assert list == list[..|list| - 1] + [list[|list| - 1]];
    }
  }

  lemma {:induction false} OccurrencesOfRepeated(list: seq<string>, other: string, n: nat, name: string)
    ensures Occurrences(list + Repeated(other, n), name) == Occurrences(list, name) + if other == name then n else 0
  {
    if n == 0 {
      assert list + [] == list;
    } else {
      var all := list + Repeated(other, n);
      OccurrencesOfRepeated(list, other, n - 1, name);
      assert all[..|all| - 1] == list + Repeated(other, n - 1);
    }
  }

  /** Among the receivers of a target, a name of the dictionary stands as often as its notifications go there. */
  lemma {:induction false} ReceiversCount(p: Parsed, target: Target, n: nat, e: nat)
    requires WellFormed(p) && DistinctNames(p.entries) && IsTarget(p, target) && n <= |p.entries| && e < |p.entries|
    ensures Occurrences(Receivers(p, target, n), p.entries[e].name) == if e < n then CountOf(p, target, e) else 0
  {
    if n > 0 {
      var last, name := p.entries[n - 1], p.entries[e].name;
      ReceiversCount(p, target, n - 1, e);
      OccurrencesOfRepeated(Receivers(p, target, n - 1), last.name, CountOf(p, target, n - 1), name);
      assert Receivers(p, target, n)
          == Receivers(p, target, n - 1) + Repeated(last.name, CountOf(p, target, n - 1));
    }
  }

  predicate IsName(p: Parsed, e: nat, name: string) {
    e < |p.entries| && p.entries[e].name == name
  }

  /** The receivers are the names of the first n entries. */
  ghost predicate NamesOfFirst(p: Parsed, receivers: seq<string>, n: nat) {
    forall name :: name in receivers ==> NameOfFirst(p, name, n)
  }

  ghost predicate NameOfFirst(p: Parsed, name: string, n: nat) {
    exists e :: 0 <= e < n && IsName(p, e, name)
  }

  /** And stand in the order of the entries. */
  ghost predicate InOrder(p: Parsed, receivers: seq<string>) {
    forall a, b, u: nat, v: nat ::
      0 <= a < b < |receivers| && IsName(p, u, receivers[a]) && IsName(p, v, receivers[b]) ==> u <= v
  }

  ghost predicate DeclaredInOrder(p: Parsed, first: string, second: string) {
    exists u, v :: 0 <= u <= v < |p.entries| && p.entries[u].name == first && p.entries[v].name == second
  }

  lemma NamesOfFirstStep(p: Parsed, receivers: seq<string>, more: seq<string>, n: nat)
    requires 0 < n <= |p.entries| && NamesOfFirst(p, receivers, n - 1)
    requires forall i :: 0 <= i < |more| ==> more[i] == p.entries[n - 1].name
    ensures NamesOfFirst(p, receivers + more, n)
  {
    forall name | name in receivers + more ensures NameOfFirst(p, name, n) {
      if name in receivers {
        assert NameOfFirst(p, name, n - 1);
      } else {
        assert IsName(p, n - 1, name);
      }
    }
  }

  lemma InOrderStep(p: Parsed, receivers: seq<string>, more: seq<string>, n: nat)
    requires DistinctNames(p.entries) && 0 < n <= |p.entries|
    requires NamesOfFirst(p, receivers, n - 1) && InOrder(p, receivers)
    requires forall i :: 0 <= i < |more| ==> more[i] == p.entries[n - 1].name
    ensures InOrder(p, receivers + more)
  {
    var all := receivers + more;
    forall a, b, u: nat, v: nat | 0 <= a < b < |all| && IsName(p, u, all[a]) && IsName(p, v, all[b])
      ensures u <= v
    {
      if b < |receivers| {
        assert receivers[a] == all[a] && receivers[b] == all[b];
      } else {
        assert v == n - 1;
        if a < |receivers| {
          assert all[a] == receivers[a] && NameOfFirst(p, receivers[a], n - 1);
        } else {
          assert u == n - 1;
        }
      }
    }
  }

  lemma {:induction false} ReceiversInOrder(p: Parsed, target: Target, n: nat)
    requires WellFormed(p) && DistinctNames(p.entries) && IsTarget(p, target) && n <= |p.entries|
    ensures NamesOfFirst(p, Receivers(p, target, n), n) && InOrder(p, Receivers(p, target, n))
  {
    if n > 0 {
      var last, count := p.entries[n - 1], CountOf(p, target, n - 1);
      ReceiversInOrder(p, target, n - 1);
      RepeatedIsTheName(last.name, count);
      NamesOfFirstStep(p, Receivers(p, target, n - 1), Repeated(last.name, count), n);
      InOrderStep(p, Receivers(p, target, n - 1), Repeated(last.name, count), n);
      assert Receivers(p, target, n) == Receivers(p, target, n - 1) + Repeated(last.name, count);
    }
  }

  /**
   Main result on one list, said about the dictionary alone: it holds each name of the dictionary as often
   as an inbound notification of its component goes to this list, and no other, in the dictionary's order.
   */
  lemma ListIsExact(p: Parsed, lists: Lists, o: nat, i: nat, e: nat)
    requires WellFormed(p) && DistinctNames(p.entries) && AllReceivers(p, lists)
    requires o < |lists| && i < |lists[o]| && e < |p.entries|
    ensures var inbound := p.objects[p.entries[e].number].inbound;
            multiset(lists[o][i])[p.entries[e].name]
            == |set k: nat | k < |inbound| && Resolve(p, inbound[k]) == Some(Target(o, i))|
    ensures forall name :: name in lists[o][i] ==> exists u :: 0 <= u < |p.entries| && p.entries[u].name == name
    ensures forall a, b :: 0 <= a < b < |lists[o][i]| ==> DeclaredInOrder(p, lists[o][i][a], lists[o][i][b])
  {
    var inbound, list := p.objects[p.entries[e].number].inbound, lists[o][i];
    ReceiversCount(p, Target(o, i), |p.entries|, e);
    OccurrencesAreTheMultiset(list, p.entries[e].name);
    CountNamedCounts(p, inbound, Target(o, i), |inbound|);
    assert Going(p, inbound, Target(o, i), |inbound|)
        == set k: nat | k < |inbound| && Resolve(p, inbound[k]) == Some(Target(o, i));
    ReceiversInOrder(p, Target(o, i), |p.entries|);
    OrderWrittenOut(p, list);
  }

  lemma OrderWrittenOut(p: Parsed, list: seq<string>)
    requires NamesOfFirst(p, list, |p.entries|) && InOrder(p, list)
    ensures forall name :: name in list ==> exists u :: 0 <= u < |p.entries| && p.entries[u].name == name
    ensures forall a, b :: 0 <= a < b < |list| ==> DeclaredInOrder(p, list[a], list[b])
  {
    forall name | name in list ensures exists u :: 0 <= u < |p.entries| && p.entries[u].name == name {
      var u :| 0 <= u < |p.entries| && IsName(p, u, name);
      assert p.entries[u].name == name;
    }
    forall a, b | 0 <= a < b < |list|
      ensures DeclaredInOrder(p, list[a], list[b])
    {
      assert list[a] in list && list[b] in list;
      var u :| 0 <= u < |p.entries| && IsName(p, u, list[a]);
      var v :| 0 <= v < |p.entries| && IsName(p, v, list[b]);
      assert p.entries[u].name == list[a] && p.entries[v].name == list[b];
    }
  }

  ghost predicate AllReceivers(p: Parsed, lists: Lists)
    requires WellFormed(p)
  {
    && Shaped(lists, p)
    && (forall o, i :: 0 <= o < |lists| && 0 <= i < |lists[o]| ==>
          lists[o][i] == Receivers(p, Target(o, i), |p.entries|))
    && Total(lists) == InboundCount(p, |p.entries|)
  }

  lemma EmptyListsFilled(before: Lists, p: Parsed)
    requires WellFormed(p) && Validated(p) && Shaped(before, p)
    requires forall o, i :: 0 <= o < |before| && 0 <= i < |before[o]| ==> before[o][i] == []
    ensures AllReceivers(p, AppendAll(before, Deliveries(p, |p.entries|)))
  {
    var lists := AppendAll(before, Deliveries(p, |p.entries|));
    EveryListIsComplete(before, p);
    EmptyTotal(before);
    forall o, i | 0 <= o < |lists| && 0 <= i < |lists[o]|
      ensures lists[o][i] == Receivers(p, Target(o, i), |p.entries|)
    {
      DeliveriesAreTheReceivers(p, Target(o, i), |p.entries|);
      assert before[o][i] == [];
    }
  }

  lemma {:induction false} EmptyTotal(lists: Lists)
    requires forall o, i :: 0 <= o < |lists| && 0 <= i < |lists[o]| ==> lists[o][i] == []
    ensures Total(lists) == 0
    decreases |lists|
  {
    if lists != [] {
      EmptyTotal(lists[..|lists| - 1]);
      EmptyRow(lists[|lists| - 1]);
    }
  }

  lemma {:induction false} EmptyRow(row: seq<seq<string>>)
    requires forall i :: 0 <= i < |row| ==> row[i] == []
    ensures RowTotal(row) == 0
    decreases |row|
  {
    if row != [] { EmptyRow(row[..|row| - 1]); }
  }

  /**
   Main result, `parse` as a whole: it succeeds exactly if no declaration uses an unknown name and the
   messages are valid; then each outbound notification of each object has, in the order of the
   dictionary, every name of a component as often as an inbound notification of it names that one.
   */
  method GenerateReceiverLists(declarations: seq<Declaration>) returns (r: Option<Lists>)
    ensures r.Some? <==> ParseAll(declarations).Ok? && WellFormed(ParseAll(declarations).value)
                         && Validated(ParseAll(declarations).value)
    ensures r.Some? ==> AllReceivers(ParseAll(declarations).value, r.value)
    ensures r.Some? ==> DistinctNames(ParseAll(declarations).value.entries)
  {
    var parsed := ParseDeclarations(declarations);
    if parsed.Err? {
      return None;
    }
    var valid := ValidateMessages(parsed.value);
    if !valid {
      return None;
    }
    var builder := new ReceiverListBuilder(parsed.value);
    ghost var before := builder.receivers;
    var ok := builder.CreateReceiverLists();
    EmptyListsFilled(before, parsed.value);
    return Some(builder.receivers);
  }
}
