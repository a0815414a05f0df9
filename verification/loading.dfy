/**
  Loading the command files of the commands directory, shared by the start-up
  loader of the message handler and by the reload paths.

  Importing a module is an oracle: for a file it either raises, with a message,
  or yields the module's export. An export is a descriptor; one whose name is
  empty stands for an export without a `name`, which the source skips.
 */
module Loading {
  import opened JsString
  import opened Command
  import opened Registry

  datatype Load = Raises(message: string) | Exports(command: Command)

  /** What `import()` does with each file name. */
  type Loader = string -> Load

  /** `file.endsWith('.js') && !file.startsWith('_')` */
  predicate IsCommandFile(f: string) {
    EndsWith(f, ".js") && !StartsWith(f, "_")
  }

  /** The directory listing filtered to command files, in listing order. */
  function CommandFiles(files: seq<string>): (fs: seq<string>)
    ensures forall f :: f in fs <==> f in files && IsCommandFile(f)
    ensures |fs| <= |files|
  {
    if files == [] then []
    else (if IsCommandFile(files[0]) then [files[0]] else []) + CommandFiles(files[1..])
  }

  /** `command && command.name`: the export is registered only when it carries a name. */
  predicate Registrable(l: Load) {
    l.Exports? && l.command.name != ""
  }

  /** The `i`-th file yields a registrable command called `n`. */
  predicate Provides(files: seq<string>, load: Loader, i: int, n: string) {
    0 <= i < |files| && Registrable(load(files[i])) && load(files[i]).command.name == n
  }

  /** The number of files whose export is registrable. */
  function CountRegistrable(files: seq<string>, load: Loader): (n: nat)
    ensures n <= |files|
  {
    if files == [] then 0
    else (if Registrable(load(files[0])) then 1 else 0) + CountRegistrable(files[1..], load)
  }

  /**
    The loading loop: each file in order is imported, a named export is
    registered and counted, and anything else (a raise, an unnamed export) is
    skipped.
   */
  function LoadAll(r: Registry, files: seq<string>, load: Loader): (res: (Registry, nat))
    ensures res.1 == CountRegistrable(files, load)
    ensures Valid(r) ==> Valid(res.0)
    decreases |files|
  {
    if files == [] then (r, 0)
    else
      var l := load(files[0]);
      var rest := LoadAll(if Registrable(l) then Register(r, l.command) else r, files[1..], load);
      (rest.0, (if Registrable(l) then 1 else 0) + rest.1)
  }

  /**
    The registry after loading holds exactly the names it held before plus the
    names of the registrable exports.
   */
  lemma {:induction false} LoadAllNames(r: Registry, files: seq<string>, load: Loader)
    ensures forall n :: n in LoadAll(r, files, load).0.commands <==>
      n in r.commands || exists i :: Provides(files, load, i, n)
    decreases |files|
  {
    if files != [] {
      var l := load(files[0]);
      var r1 := if Registrable(l) then Register(r, l.command) else r;
      assert forall n :: n in r1.commands <==> n in r.commands || Provides(files, load, 0, n);
      LoadAllNames(r1, files[1..], load);
      ProvidesShift(files, load);
    }
  }

  /** A file after the first provides a name exactly when it does so in the rest of the list. */
  lemma ProvidesShift(files: seq<string>, load: Loader)
    requires files != []
    ensures forall n :: (exists i :: Provides(files, load, i, n)) <==>
      (Provides(files, load, 0, n) || exists j :: Provides(files[1..], load, j, n))
  {
    forall n
      ensures (exists i :: Provides(files, load, i, n)) ==>
        (Provides(files, load, 0, n) || exists j :: Provides(files[1..], load, j, n))
    {
      if i :| Provides(files, load, i, n) {
        if i > 0 {
          assert Provides(files[1..], load, i - 1, n);
        }
      }
    }
    forall n, j | Provides(files[1..], load, j, n)
      ensures Provides(files, load, j + 1, n)
    {
    }
  }

  /** Later files win: a command registered by the last file that names it is what the registry holds. */
  lemma {:induction false} LastProviderWins(r: Registry, files: seq<string>, load: Loader, i: nat)
    requires i < |files| && Registrable(load(files[i]))
    requires forall j :: i < j < |files| && Registrable(load(files[j])) ==>
      load(files[j]).command.name != load(files[i]).command.name
    ensures var c := load(files[i]).command;
      c.name in LoadAll(r, files, load).0.commands && LoadAll(r, files, load).0.commands[c.name] == c
    decreases |files|
  {
    var c := load(files[i]).command;
    var l := load(files[0]);
    var r1 := if Registrable(l) then Register(r, l.command) else r;
    assert LoadAll(r, files, load).0 == LoadAll(r1, files[1..], load).0;
    if i == 0 {
      LaterKeep(r1, files[1..], load, c);
    } else {
      LastProviderWins(r1, files[1..], load, i - 1);
    }
  }

  /** Files that never name `c.name` leave its entry alone. */
  lemma {:induction false} LaterKeep(r: Registry, files: seq<string>, load: Loader, c: Command)
    requires c.name in r.commands && r.commands[c.name] == c
    requires forall j :: 0 <= j < |files| && Registrable(load(files[j])) ==> load(files[j]).command.name != c.name
    ensures c.name in LoadAll(r, files, load).0.commands && LoadAll(r, files, load).0.commands[c.name] == c
    decreases |files|
  {
    if files != [] {
      var l := load(files[0]);
      var r1 := if Registrable(l) then Register(r, l.command) else r;
      assert Registrable(l) ==> l.command.name != c.name;
      LaterKeep(r1, files[1..], load, c);
    }
  }
}
