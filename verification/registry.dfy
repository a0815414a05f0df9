/**
  The command registry of `createCommandHandler` and the read-only context that
  `createHandlerContext` hands to commands.

  The registry keeps the source's three maps (name to descriptor, alias to name,
  name to category) and, in `order`, the insertion order of the name map, which
  is the order in which JavaScript iterates it. The category map is written and
  deleted in step with the name map, so it shares that key order.
 */
module Registry {
  import opened Wrappers
  import opened JsString
  import opened Command
  import Grouping

  datatype Registry = Registry(
    commands: map<string, Command>,
    aliases: map<string, string>,
    categories: map<string, string>,
    order: seq<string>)

  const Empty := Registry(map[], map[], map[], [])

  predicate Distinct(xs: seq<string>) {
    forall i, j :: 0 <= i < j < |xs| ==> xs[i] != xs[j]
  }

  /**
    What register/unregister/clear keep true: `order` lists each registered name
    once, the category map has the same keys as the name map, each descriptor is
    filed under its own name and category, and every alias names a registered
    command.
   */
  ghost predicate Valid(r: Registry) {
    && Distinct(r.order)
    && (forall n :: n in r.commands <==> n in r.order)
    && r.categories.Keys == r.commands.Keys
    && (forall n :: n in r.commands ==> r.commands[n].name == n && r.categories[n] == r.commands[n].category)
    && (forall a :: a in r.aliases ==> r.aliases[a] in r.commands)
  }

  lemma EmptyIsValid()
    ensures Valid(Empty)
  {
  }

  /** `aliases.forEach(alias => map.set(alias, name))` */
  function AddAliases(m: map<string, string>, aliases: seq<string>, name: string): (m': map<string, string>)
    ensures forall a :: a in m' <==> a in m || a in aliases
    ensures forall a :: a in aliases ==> m'[a] == name
    ensures forall a :: a in m && a !in aliases ==> m'[a] == m[a]
    decreases |aliases|
  {
    if |aliases| == 0 then m else AddAliases(m[aliases[0] := name], aliases[1..], name)
  }

  /** `register(command)` */
  function Register(r: Registry, c: Command): (r': Registry)
    ensures r'.commands == r.commands[c.name := c]
    ensures r'.categories == r.categories[c.name := c.category]
    ensures forall a :: a in r'.aliases <==> a in r.aliases || a in c.aliases
    ensures forall a :: a in c.aliases ==> r'.aliases[a] == c.name
    ensures forall a :: a in r.aliases && a !in c.aliases ==> r'.aliases[a] == r.aliases[a]
    ensures Valid(r) ==> Valid(r')
  {
    var order := if c.name in r.commands then r.order else r.order + [c.name];
    var r' := Registry(r.commands[c.name := c], AddAliases(r.aliases, c.aliases, c.name),
                       r.categories[c.name := c.category], order);
    assert Valid(r) ==> Valid(r') by {
      if Valid(r) {
        RegisteredIsValid(r, c, r');
      }
    }
    r'
  }

  lemma RegisteredIsValid(r: Registry, c: Command, r': Registry)
    requires Valid(r)
    requires r'.commands == r.commands[c.name := c] && r'.categories == r.categories[c.name := c.category]
    requires r'.order == if c.name in r.commands then r.order else r.order + [c.name]
    requires forall a :: a in r'.aliases <==> a in r.aliases || a in c.aliases
    requires forall a :: a in c.aliases ==> r'.aliases[a] == c.name
    requires forall a :: a in r.aliases && a !in c.aliases ==> r'.aliases[a] == r.aliases[a]
    ensures Valid(r')
  {
    OrderAfterRegister(r, c.name, r'.order);
    assert r'.categories.Keys == r'.commands.Keys;
    assert forall n :: n in r'.commands ==> r'.commands[n].name == n && r'.categories[n] == r'.commands[n].category;
    AliasesAfterRegister(r, c, r'.aliases);
  }

  /** After registering, every alias still names a registered command. */
  lemma AliasesAfterRegister(r: Registry, c: Command, aliases: map<string, string>)
    requires forall a :: a in r.aliases ==> r.aliases[a] in r.commands
    requires forall a :: a in aliases <==> a in r.aliases || a in c.aliases
    requires forall a :: a in c.aliases ==> aliases[a] == c.name
    requires forall a :: a in r.aliases && a !in c.aliases ==> aliases[a] == r.aliases[a]
    ensures forall a :: a in aliases ==> aliases[a] in r.commands[c.name := c]
  {
    forall a | a in aliases ensures aliases[a] in r.commands[c.name := c] {
      if a !in c.aliases {
        assert aliases[a] == r.aliases[a];
      }
    }
  }

  /** Appending a new name, or keeping the order for a known one, lists each name once and nothing else. */
  lemma OrderAfterRegister(r: Registry, name: string, order: seq<string>)
    requires Valid(r)
    requires order == if name in r.commands then r.order else r.order + [name]
    ensures Distinct(order)
    ensures forall n :: n in order <==> n in r.order || n == name
  {
    if name !in r.commands {
      assert name !in r.order;
      forall i, j | 0 <= i < j < |order| ensures order[i] != order[j] {
        if j < |r.order| {
          assert order[i] == r.order[i] && order[j] == r.order[j];
        } else {
          assert order[i] in r.order;
        }
      }
    }
  }

  /** `order` without `name`. */
  function Without(xs: seq<string>, name: string): (ys: seq<string>)
    ensures forall x :: x in ys <==> x in xs && x != name
    ensures Distinct(xs) ==> Distinct(ys)
  {
    if |xs| == 0 then []
    else if xs[0] == name then Without(xs[1..], name)
    else
      var ys := [xs[0]] + Without(xs[1..], name);
      assert Distinct(xs) ==> Distinct(ys) by {
        if Distinct(xs) {
          assert xs[0] !in xs[1..];
        }
      }
      ys
  }

  /** `unregister(name)`: the registry after the call and whether anything was removed. */
  function Unregister(r: Registry, name: string): (res: (Registry, bool))
    ensures name !in r.commands ==> res == (r, false)
    ensures name in r.commands ==> res.1
    ensures name in r.commands ==>
      && res.0.commands == r.commands - {name}
      && res.0.categories == r.categories - {name}
      && (forall a :: a in res.0.aliases <==> a in r.aliases && r.aliases[a] != name)
      && (forall a :: a in res.0.aliases ==> res.0.aliases[a] == r.aliases[a])
    ensures Valid(r) ==> Valid(res.0)
  {
    if name !in r.commands then (r, false)
    else
      var aliases := map a | a in r.aliases && r.aliases[a] != name :: r.aliases[a];
      (Registry(r.commands - {name}, aliases, r.categories - {name}, Without(r.order, name)), true)
  }

  /** `clear()`: the emptied registry and the number of commands it held. */
  function Clear(r: Registry): (res: (Registry, nat))
    ensures res.0 == Empty
    ensures res.1 == |r.commands|
  {
    (Empty, |r.commands|)
  }

  /** `aliases.get(name) || name`: an alias wins over a command name; an empty target is falsy. */
  function Resolve(r: Registry, name: string): string {
    if name in r.aliases && r.aliases[name] != "" then r.aliases[name] else name
  }

  /** `get(name)` */
  function Get(r: Registry, name: string): (c: Option<Command>)
    ensures c.Some? <==> Resolve(r, name) in r.commands
    ensures c.Some? ==> c.value == r.commands[Resolve(r, name)]
    ensures Valid(r) && c.Some? ==> c.value.name == Resolve(r, name)
  {
    var key := Resolve(r, name);
    if key in r.commands then Some(r.commands[key]) else None
  }

  /** After `register(c)`, every alias of `c` finds `c`, and so does its name unless another alias shadows it. */
  lemma RegisterThenGet(r: Registry, c: Command)
    requires c.name != ""
    ensures forall a :: a in c.aliases ==> Get(Register(r, c), a) == Some(c)
    ensures c.name !in r.aliases ==> Get(Register(r, c), c.name) == Some(c)
  {
  }

  /**
    Registering never drops an alias: when a name is registered again with fewer
    aliases, the old ones still lead to that name.
   */
  lemma ReRegisterKeepsOldAliases(r: Registry, c: Command, a: string)
    requires a in r.aliases && r.aliases[a] == c.name
    ensures a in Register(r, c).aliases && Register(r, c).aliases[a] == c.name
  {
  }

  /**
    Alias collisions are settled by the last registration: when `a` and `b` share
    the alias `x`, after registering `a` then `b` the alias finds `b`, and `a` is
    still found under its own name.
   */
  lemma AliasLastWriterWins(r: Registry, a: Command, b: Command, x: string)
    requires a.name != b.name && b.name != ""
    requires x in a.aliases && x in b.aliases
    requires a.name !in r.aliases && a.name !in b.aliases
    ensures Get(Register(Register(r, a), b), x) == Some(b)
    ensures Get(Register(Register(r, a), b), a.name) == Some(a)
  {
    var r2 := Register(Register(r, a), b);
    assert r2.aliases[x] == b.name;
    OwnNameStillFinds(r, a, b);
  }

  lemma OwnNameStillFinds(r: Registry, a: Command, b: Command)
    requires a.name != b.name
    requires a.name !in r.aliases && a.name !in b.aliases
    ensures Get(Register(Register(r, a), b), a.name) == Some(a)
  {
    var r1 := Register(r, a);
    var r2 := Register(r1, b);
    if a.name in r2.aliases {
      assert a.name in a.aliases;
      assert r2.aliases[a.name] == a.name;
    }
  }

  /**
    Registering a command and unregistering its name leaves neither the name nor any
    of its aliases finding anything, provided no other command is registered under
    one of those aliases and the name is not another command's alias.
   */
  lemma RegisterThenUnregister(r: Registry, c: Command)
    requires Valid(r)
    requires forall a :: a in c.aliases ==> a !in r.commands
    requires c.name !in r.aliases
    ensures var r' := Unregister(Register(r, c), c.name);
      && r'.1
      && Get(r'.0, c.name) == None
      && (forall a :: a in c.aliases ==> a !in r'.0.aliases && Get(r'.0, a) == None)
  {
    var r1 := Register(r, c);
    assert c.name in r1.aliases ==> r1.aliases[c.name] == c.name;
  }

  /** The count `clear()` returns is the number of names in the iteration order. */
  lemma {:induction false} ClearCountsOrder(r: Registry)
    requires Valid(r)
    ensures Clear(r).1 == |r.order|
  {
    DistinctCard(r.order);
    assert r.commands.Keys == set n | n in r.order;
  }

  lemma {:induction false} DistinctCard(xs: seq<string>)
    requires Distinct(xs)
    ensures |set n | n in xs| == |xs|
    decreases |xs|
  {
    if |xs| > 0 {
      DistinctCard(xs[1..]);
      assert (set n | n in xs) == (set n | n in xs[1..]) + {xs[0]};
      assert xs[0] !in xs[1..];
    }
  }

  // ---------------------------------------------------------------- execute

  /** What the wrapped handler does once admitted: its return value, or the message it throws. */
  datatype HandlerRun = Returns(text: string) | Throws(message: string)

  /** The result of `execute`: `null` for an unknown command, otherwise the returned or caught text. */
  datatype Outcome = NotFound | Reply(text: string)

  /**
    `execute(message, name, args)` with the caller's tier already resolved: an
    unknown name yields `null`; a failed check or a throwing handler yields the
    error message; otherwise the handler's text, with the caller's cooldown
    stamped on the stored descriptor.
   */
  function Execute(r: Registry, chatId: string, senderId: string, name: string, tier: string, now: int, run: HandlerRun)
    : (res: (Registry, Outcome))
    ensures Get(r, name).None? ==> res == (r, NotFound)
    ensures Get(r, name).Some? ==> res.1.Reply?
    ensures Get(r, name).Some? && Check(Get(r, name).value, chatId, senderId, tier, now).Rejected? ==>
      res == (r, Reply(Check(Get(r, name).value, chatId, senderId, tier, now).message))
    ensures Get(r, name).Some? && Check(Get(r, name).value, chatId, senderId, tier, now).Admitted? ==>
      && res.1 == Reply(if run.Returns? then run.text else run.message)
      && res.0 == r.(commands := r.commands[Resolve(r, name) := Stamp(Get(r, name).value, senderId, now)])
    ensures Valid(r) ==> Valid(res.0)
  {
    match Get(r, name)
    case None => (r, NotFound)
    case Some(c) =>
      match Check(c, chatId, senderId, tier, now)
      case Rejected(m) => (r, Reply(m))
      case Admitted(d) =>
        var r' := r.(commands := r.commands[Resolve(r, name) := d]);
        (r', Reply(if run.Returns? then run.text else run.message))
  }

  /** An unknown name is answered without looking at the caller at all: the tier cannot matter. */
  lemma NotFoundIgnoresTier(r: Registry, chatId: string, senderId: string, name: string,
                            tier1: string, tier2: string, now: int, run: HandlerRun)
    requires Get(r, name).None?
    ensures Execute(r, chatId, senderId, name, tier1, now, run) == Execute(r, chatId, senderId, name, tier2, now, run)
  {
  }

  // ---------------------------------------------------------------- handler context

  /** The read-only projection `listForUser` returns: a descriptor without its `execute`. */
  datatype Info = Info(
    name: string,
    description: string,
    aliases: seq<string>,
    cooldown: int,
    example: string,
    chatType: string,
    permissions: seq<string>)

  function InfoOf(c: Command): Info {
    Info(c.name, c.description, c.aliases, c.cooldown, c.example, c.chatType, c.permissions)
  }

  /** Whether `listForUser(tier, chatType)` shows a command. */
  predicate Eligible(c: Command, tier: string, chatType: string) {
    tier in c.permissions && (c.chatType == "both" || c.chatType == chatType)
  }

  /** `categories.get(name) || 'general'` */
  function CategoryOf(r: Registry, name: string): string {
    if name in r.categories && r.categories[name] != "" then r.categories[name] else DEFAULT_CATEGORY
  }

  /** The listed entries, in iteration order, each with the category it is filed under. */
  function Visible(r: Registry, names: seq<string>, tier: string, chatType: string): (es: seq<(string, Info)>)
    ensures forall e :: e in es ==>
      exists n :: n in names && n in r.commands && Eligible(r.commands[n], tier, chatType)
                  && e == (CategoryOf(r, n), InfoOf(r.commands[n]))
    ensures forall n :: n in names && n in r.commands && Eligible(r.commands[n], tier, chatType) ==>
      (CategoryOf(r, n), InfoOf(r.commands[n])) in es
  {
    if |names| == 0 then []
    else
      var rest := Visible(r, names[1..], tier, chatType);
      var n := names[0];
      if n in r.commands && Eligible(r.commands[n], tier, chatType) then
        [(CategoryOf(r, n), InfoOf(r.commands[n]))] + rest
      else rest
  }

  /** `listForUser(tier, chatType)`: the eligible commands grouped by category, categories in first-seen order. */
  function ListForUser(r: Registry, tier: string, chatType: string): (gs: seq<(string, seq<Info>)>)
    ensures Grouping.DistinctKeys(gs) && Grouping.NonEmptyGroups(gs)
    ensures Grouping.Entries(gs) == multiset(Visible(r, r.order, tier, chatType))
  {
    Grouping.GroupBy(Visible(r, r.order, tier, chatType))
  }

  /**
    `listForUser` shows exactly the registered commands whose permissions contain
    the tier and whose chat type is "both" or the given one, each under its own
    category; the listing holds as many entries as there are such commands.
   */
  lemma ListForUserExact(r: Registry, tier: string, chatType: string)
    requires Valid(r)
    ensures var gs := ListForUser(r, tier, chatType);
      && (forall i, j :: 0 <= i < |gs| && 0 <= j < |gs[i].1| ==>
            var e := gs[i].1[j];
            && e.name in r.commands
            && e == InfoOf(r.commands[e.name])
            && gs[i].0 == CategoryOf(r, e.name)
            && tier in e.permissions && (e.chatType == "both" || e.chatType == chatType))
      && (forall n :: n in r.commands && Eligible(r.commands[n], tier, chatType) ==>
            exists i :: 0 <= i < |gs| && gs[i].0 == CategoryOf(r, n) && InfoOf(r.commands[n]) in gs[i].1)
      && Grouping.Total(gs) == |Visible(r, r.order, tier, chatType)|
  {
    var gs := ListForUser(r, tier, chatType);
    var es := Visible(r, r.order, tier, chatType);
    forall i, j | 0 <= i < |gs| && 0 <= j < |gs[i].1|
      ensures var e := gs[i].1[j];
        && e.name in r.commands
        && e == InfoOf(r.commands[e.name])
        && gs[i].0 == CategoryOf(r, e.name)
        && tier in e.permissions && (e.chatType == "both" || e.chatType == chatType)
    {
      Grouping.MemberIsEntry(gs, i, j);
      assert (gs[i].0, gs[i].1[j]) in es;
    }
    forall n | n in r.commands && Eligible(r.commands[n], tier, chatType)
      ensures exists i :: 0 <= i < |gs| && gs[i].0 == CategoryOf(r, n) && InfoOf(r.commands[n]) in gs[i].1
    {
      assert (CategoryOf(r, n), InfoOf(r.commands[n])) in es;
      Grouping.EntryHasGroup(gs, CategoryOf(r, n), InfoOf(r.commands[n]));
    }
    Grouping.GroupByTotal(es);
  }

  /** The (raw category, name) pairs of the category map, in its iteration order. */
  function CategoryPairs(r: Registry, names: seq<string>): (ps: seq<(string, string)>)
    ensures forall p :: p in ps ==> p.1 in names && p.1 in r.categories && p.0 == r.categories[p.1]
    ensures forall n :: n in names && n in r.categories ==> (r.categories[n], n) in ps
  {
    if |names| == 0 then []
    else
      var rest := CategoryPairs(r, names[1..]);
      if names[0] in r.categories then [(r.categories[names[0]], names[0])] + rest else rest
  }

  function Keys(gs: seq<(string, seq<string>)>): (ks: seq<string>)
    ensures |ks| == |gs| && forall i :: 0 <= i < |gs| ==> ks[i] == gs[i].0
  {
    seq(|gs|, i requires 0 <= i < |gs| => gs[i].0)
  }

  /** `getCategories()`: each category value once, in first-seen order. */
  function GetCategories(r: Registry): (cs: seq<string>)
    ensures Distinct(cs)
    ensures Valid(r) ==> forall x :: x in cs <==> x in r.categories.Values
  {
    var cs := Keys(Grouping.GroupBy(CategoryPairs(r, r.order)));
    KeysAreCategoryValues(r);
    assert Valid(r) ==> forall x :: x in cs <==> x in r.categories.Values by {
      if Valid(r) {
        assert forall n :: n in r.categories ==> n in r.order;
        CategoryValuesAreKeys(r);
      }
    }
    cs
  }

  /** Every key of the grouped category pairs is the category of some registered name. */
  lemma KeysAreCategoryValues(r: Registry)
    ensures forall x :: x in Keys(Grouping.GroupBy(CategoryPairs(r, r.order))) ==> x in r.categories.Values
  {
    var ps := CategoryPairs(r, r.order);
    var gs := Grouping.GroupBy(ps);
    var cs := Keys(gs);
    forall x | x in cs ensures x in r.categories.Values {
      var i :| 0 <= i < |cs| && cs[i] == x;
      assert |gs[i].1| > 0;
      Grouping.MemberIsEntry(gs, i, 0);
      var p := (gs[i].0, gs[i].1[0]);
      assert p in multiset(ps);
      assert p in ps;
    }
  }

  /** Every category of a name in the iteration order is a key of the grouped category pairs. */
  lemma CategoryValuesAreKeys(r: Registry)
    requires forall n :: n in r.categories ==> n in r.order
    ensures forall x :: x in r.categories.Values ==> x in Keys(Grouping.GroupBy(CategoryPairs(r, r.order)))
  {
    var ps := CategoryPairs(r, r.order);
    var gs := Grouping.GroupBy(ps);
    var cs := Keys(gs);
    forall x | x in r.categories.Values ensures x in cs {
      var n :| n in r.categories && r.categories[n] == x;
      assert (x, n) in ps;
      assert (x, n) in Grouping.Entries(gs);
      Grouping.EntryHasGroup(gs, x, n);
      var i :| 0 <= i < |gs| && gs[i].0 == x && n in gs[i].1;
      assert cs[i] == x;
    }
  }

  /** `getCommandsByCategory(category)`: the commands filed (with the 'general' fallback) under it. */
  function CommandsInCategory(r: Registry, names: seq<string>, category: string): (cs: seq<Command>)
    ensures forall c :: c in cs ==> exists n :: n in names && n in r.commands && CategoryOf(r, n) == category && c == r.commands[n]
    ensures forall n :: n in names && n in r.commands && CategoryOf(r, n) == category ==> r.commands[n] in cs
  {
    if |names| == 0 then []
    else
      var rest := CommandsInCategory(r, names[1..], category);
      var n := names[0];
      if n in r.commands && CategoryOf(r, n) == category then [r.commands[n]] + rest else rest
  }

  function GetCommandsByCategory(r: Registry, category: string): seq<Command> {
    CommandsInCategory(r, r.order, category)
  }

  datatype StatEntry = StatEntry(name: string, category: string, permissions: seq<string>, chatType: string)

  datatype Stats = Stats(total: nat, byCategory: seq<(string, nat)>, commands: seq<StatEntry>, categories: seq<string>)

  function Counts(gs: seq<(string, seq<string>)>): (cs: seq<(string, nat)>)
    ensures |cs| == |gs|
    ensures forall i :: 0 <= i < |gs| ==> cs[i] == (gs[i].0, |gs[i].1|)
  {
    seq(|gs|, i requires 0 <= i < |gs| => (gs[i].0, |gs[i].1|))
  }

  function SumCounts(cs: seq<(string, nat)>): nat {
    if |cs| == 0 then 0 else SumCounts(cs[..|cs| - 1]) + cs[|cs| - 1].1
  }

  lemma {:induction false} SumCountsIsTotal(gs: seq<(string, seq<string>)>)
    ensures SumCounts(Counts(gs)) == Grouping.Total(gs)
    decreases |gs|
  {
    if |gs| > 0 {
      assert Counts(gs)[..|gs| - 1] == Counts(gs[..|gs| - 1]);
      SumCountsIsTotal(gs[..|gs| - 1]);
    }
  }

  function StatEntries(r: Registry, ps: seq<(string, string)>): (es: seq<StatEntry>)
    ensures |es| <= |ps|
  {
    if |ps| == 0 then []
    else
      var rest := StatEntries(r, ps[1..]);
      var (category, name) := ps[0];
      if name in r.commands then
        var c := r.commands[name];
        [StatEntry(name, category, c.permissions, c.chatType)] + rest
      else rest
  }

  /** `stats()` */
  function GetStats(r: Registry): (s: Stats)
    ensures s.total == |r.commands|
    ensures Valid(r) ==> SumCounts(s.byCategory) == s.total && |s.commands| == s.total
    ensures s.categories == GetCategories(r)
  {
    var ps := CategoryPairs(r, r.order);
    var gs := Grouping.GroupBy(ps);
    var s := Stats(|r.commands|, Counts(gs), StatEntries(r, ps), Keys(gs));
    assert Valid(r) ==> SumCounts(s.byCategory) == s.total && |s.commands| == s.total by {
      if Valid(r) {
        SumCountsIsTotal(gs);
        Grouping.GroupByTotal(ps);
        CategoryPairsOfValid(r, r.order);
        StatEntriesOfValid(r, ps);
        ClearCountsOrder(r);
      }
    }
    s
  }

  lemma {:induction false} CategoryPairsOfValid(r: Registry, names: seq<string>)
    requires forall n :: n in names ==> n in r.categories && n in r.commands
    ensures |CategoryPairs(r, names)| == |names|
    ensures forall p :: p in CategoryPairs(r, names) ==> p.1 in r.commands
    decreases |names|
  {
    if |names| > 0 {
      CategoryPairsOfValid(r, names[1..]);
    }
  }

  lemma {:induction false} StatEntriesOfValid(r: Registry, ps: seq<(string, string)>)
    requires forall p :: p in ps ==> p.1 in r.commands
    ensures |StatEntries(r, ps)| == |ps|
    decreases |ps|
  {
    if |ps| > 0 {
      StatEntriesOfValid(r, ps[1..]);
    }
  }
}
