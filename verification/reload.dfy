/**
  Reloading commands without a restart: the file watcher's add, change and
  unlink handlers, and the `$reload` command. Both reduce to sequences of
  registry operations driven by the loader oracle.

  Both single-file paths first clear the CommonJS require cache through
  `require.resolve(path)`. The command files are ES modules, where `require`
  is not defined, so that call raises "require is not defined" before the
  module is imported, and neither path ever reloads anything. The members
  named `...AsWritten` model that behaviour; the others model the evident
  intent, with the cache clearing dropped. The full reload reaches `require`
  only inside a try whose error it ignores, so it is unaffected.

  The reload command reaches the registry through `global.commandHandler`,
  which it may find missing; that is the `handler: Option<Registry>`
  parameter. Nothing in the program assigns that global (`GLOBAL_HANDLER`), so
  in the running bot the full reload always answers that the handler is not
  available; `RunWithHandler` is the command using the handler argument that
  `execute` passes it instead.
 */
module Reload {
  import opened Wrappers
  import opened JsString
  import opened Command
  import opened Registry
  import opened Loading

  /** The message of the ReferenceError raised by `require.resolve` in an ES module. */
  const REQUIRE_UNDEFINED := "require is not defined"

  /** How many per-file results the full reload report lists. */
  const REPORT_LIMIT: nat := 10

  /** `fileName.replace('.js', '')`: only the first ".js" goes. */
  function DerivedName(f: string): string {
    ReplaceFirst(f, ".js", "")
  }

  /** A file named after a stem without dots is derived back to that stem. */
  lemma DerivedNameOfStem(stem: string)
    requires '.' !in stem
    ensures DerivedName(stem + ".js") == stem
  {
    var f := stem + ".js";
    assert MatchAt(f, ".js", |stem|);
    forall j: nat | j < |stem|
      ensures !MatchAt(f, ".js", j)
    {
      assert f[j] == stem[j];
    }
    assert IndexOf(f, ".js") == Some(|stem|);
    assert f[..|stem|] == stem;
  }

  // ---------------------------------------------------------------- file watcher

  /** `reloadSingleCommand(file)` as written: the require-cache clearing raises, and the catch returns null. */
  function ReloadSingleAsWritten(r: Registry, f: string, load: Loader): (res: (Registry, Option<string>))
    ensures res.0 == r && res.1 == None
  {
    if !IsCommandFile(f) then (r, None)
    else
      // `require.resolve(filePath)` raises REQUIRE_UNDEFINED before `import` is reached
      (r, None)
  }

  /**
    `reloadSingleCommand(file)` without the cache clearing: a command file whose
    export has a name replaces the command registered under the file's derived
    name; anything else leaves the registry alone and yields null.
   */
  function ReloadSingle(r: Registry, f: string, load: Loader): (res: (Registry, Option<string>))
    ensures res.1.Some? <==> IsCommandFile(f) && Registrable(load(f))
    ensures res.1.Some? ==>
      && res.1.value == load(f).command.name
      && res.0.commands == (r.commands - {DerivedName(f)})[load(f).command.name := load(f).command]
    ensures res.1.None? ==> res.0 == r
    ensures Valid(r) ==> Valid(res.0)
  {
    if !IsCommandFile(f) then (r, None)
    else
      match load(f)
      case Raises(_) => (r, None)
      case Exports(c) =>
        if c.name == "" then (r, None)
        else (Register(Unregister(r, DerivedName(f)).0, c), Some(c.name))
  }

  /**
    Unlike a bare re-registration, a reload drops the aliases of the previous
    version of the command that the new version no longer declares.
   */
  lemma ReloadDropsStaleAliases(r: Registry, f: string, load: Loader, a: string)
    requires IsCommandFile(f) && Registrable(load(f))
    requires DerivedName(f) in r.commands
    requires a in r.aliases && r.aliases[a] == DerivedName(f) && a !in load(f).command.aliases
    ensures a !in ReloadSingle(r, f, load).0.aliases
  {
  }

  /**
    The watcher never reloads as written: for a command file whose module
    exports a named command, the corrected reload registers it and the
    as-written one leaves the registry as it was.
   */
  lemma WatcherReloadLost(r: Registry, stem: string, load: Loader)
    requires '.' !in stem && stem != [] && stem[0] != '_'
    requires Registrable(load(stem + ".js")) && load(stem + ".js").command.name == stem
    ensures ReloadSingleAsWritten(r, stem + ".js", load) == (r, None)
    ensures var c := load(stem + ".js").command;
      ReloadSingle(r, stem + ".js", load).0.commands == r.commands[stem := c]
  {
    StemIsCommandFile(stem);
    DerivedNameOfStem(stem);
  }

  lemma StemIsCommandFile(stem: string)
    requires stem != [] && stem[0] != '_'
    ensures IsCommandFile(stem + ".js")
  {
    var f := stem + ".js";
    assert f[|f| - 3..] == ".js";
    assert f[0] == stem[0];
  }

  /** The unlink handler: the derived name is unregistered, without the `.js` / `_` filter of the other events. */
  function Unlink(r: Registry, f: string): (r': Registry)
    ensures DerivedName(f) !in r'.commands
    ensures forall n :: n != DerivedName(f) ==> (n in r'.commands <==> n in r.commands)
    ensures Valid(r) ==> Valid(r')
  {
    Unregister(r, DerivedName(f)).0
  }

  /** A private file such as "_draft.js" is never loaded by the watcher, yet unlinking it unregisters "_draft". */
  lemma UnlinkIgnoresFilter(r: Registry, stem: string, load: Loader)
    requires '.' !in stem && stem != [] && stem[0] == '_'
    ensures !IsCommandFile(stem + ".js")
    ensures ReloadSingle(r, stem + ".js", load) == (r, None)
    ensures stem !in Unlink(r, stem + ".js").commands
  {
    var f := stem + ".js";
    assert f[0] == '_';
    DerivedNameOfStem(stem);
  }

  // ---------------------------------------------------------------- $reload

  /** The branch `$reload` takes: "single" with a target, or a full reload ("new" adds a notice). */
  datatype Mode = Single(target: string) | Full(newOnly: bool)

  /** `const [reloadType, ...targets] = args` and the branch it selects. */
  function ModeOf(args: seq<string>): (m: Mode)
    ensures m.Single? <==> |args| >= 2 && args[0] == "single"
    ensures m.Single? ==> m.target == args[1]
    ensures m.Full? ==> (m.newOnly <==> |args| >= 1 && args[0] == "new")
  {
    if |args| >= 2 && args[0] == "single" then Single(args[1])
    else Full(|args| >= 1 && args[0] == "new")
  }

  /** The reply of `$reload`; the header and footer lines of the reports are not modelled. */
  datatype Reply =
    | FileNotFound(fileName: string)
    | ReloadError(target: string, message: string)
    | LoadFailed(fileName: string)
    | Reloaded(name: string, description: string, category: string)
    | FullReport(newOnly: bool, reloaded: nat, failed: nat, listing: string)
    | NoHandler(newOnly: bool)

  /** The complete text of the replies that are a single line. */
  function ErrorText(rep: Reply): (t: string)
    requires rep.FileNotFound? || rep.ReloadError? || rep.LoadFailed?
  {
    match rep
    case FileNotFound(f) => "\U{274C} Command file \"" + f + "\" not found!"
    case ReloadError(t, m) => "\U{274C} Error reloading " + t + ": " + m
    case LoadFailed(f) => "\U{274C} Failed to load command from " + f
  }

  /** The line the full reload reports for one file. */
  function ResultLine(file: string, l: Load): string {
    match l
    case Raises(m) => "\U{274C} " + file + ": " + m
    case Exports(c) =>
      if c.name != "" then "\U{2705} " + c.name else "\U{274C} " + file + " (Invalid command)"
  }

  /** The per-file results of the full reload, in file order. */
  function ResultLines(files: seq<string>, load: Loader): (rs: seq<string>)
    ensures |rs| == |files|
    ensures forall k :: 0 <= k < |files| ==> rs[k] == ResultLine(files[k], load(files[k]))
  {
    if files == [] then [] else [ResultLine(files[0], load(files[0]))] + ResultLines(files[1..], load)
  }

  /**
    The full reload loop: the registry is cleared, then every candidate file is
    imported in order; each one counts as exactly one of reloaded or failed and
    contributes one result line. It builds the same registry and count as the
    start-up loader run on an empty registry.
   */
  method FullReload(r: Registry, files: seq<string>, load: Loader)
    returns (r': Registry, reloaded: nat, failed: nat, results: seq<string>)
    ensures (r', reloaded) == LoadAll(Clear(r).0, files, load)
    ensures reloaded + failed == |files|
    ensures results == ResultLines(files, load)
    ensures Valid(r')
  {
    r' := Clear(r).0;
    EmptyIsValid();
    reloaded, failed := 0, 0;
    var i := 0;
    while i < |files|
      invariant 0 <= i <= |files|
      invariant reloaded + failed == i
      invariant Valid(r')
      invariant LoadAll(r', files[i..], load).0 == LoadAll(Empty, files, load).0
      invariant reloaded + LoadAll(r', files[i..], load).1 == LoadAll(Empty, files, load).1
    {
      var l := load(files[i]);
      LoadAllStep(r', files[i..], load);
      assert files[i..][1..] == files[i + 1..];
      r' := LoadOne(r', l);
      if Registrable(l) {
        reloaded := reloaded + 1;
      } else {
        failed := failed + 1;
      }
      i := i + 1;
    }
    assert files[i..] == [];
    results := CollectResults(files, load);
  }

  /** The result lines of the full reload, pushed one per file in file order. */
  method CollectResults(files: seq<string>, load: Loader) returns (results: seq<string>)
    ensures results == ResultLines(files, load)
  {
    results := [];
    var i := 0;
    while i < |files|
      invariant 0 <= i <= |files|
      invariant |results| == i
      invariant forall k :: 0 <= k < i ==> results[k] == ResultLine(files[k], load(files[k]))
    {
      results := results + [ResultLine(files[i], load(files[i]))];
      i := i + 1;
    }
    ResultLinesAre(results, files, load);
  }

  /** One file of the loading loop: a registrable export is registered, anything else skipped. */
  function LoadOne(r: Registry, l: Load): (r': Registry)
    ensures Valid(r) ==> Valid(r')
    ensures Registrable(l) ==> r'.commands == r.commands[l.command.name := l.command]
    ensures !Registrable(l) ==> r' == r
  {
    if Registrable(l) then Register(r, l.command) else r
  }

  /** Loading a list is loading its first file, then the rest. */
  lemma LoadAllStep(r: Registry, files: seq<string>, load: Loader)
    requires files != []
    ensures var r1 := LoadOne(r, load(files[0]));
      LoadAll(r, files, load) == (LoadAll(r1, files[1..], load).0, (if Registrable(load(files[0])) then 1 else 0) + LoadAll(r1, files[1..], load).1)
  {
  }

  /** A list of lines that agrees with the per-file results at every index is those results. */
  lemma ResultLinesAre(results: seq<string>, files: seq<string>, load: Loader)
    requires |results| == |files|
    requires forall k :: 0 <= k < |files| ==> results[k] == ResultLine(files[k], load(files[k]))
    ensures results == ResultLines(files, load)
  {
  }

  /** The full-reload branch, with or without the global handler. */
  function FullBranch(handler: Option<Registry>, files: seq<string>, load: Loader, newOnly: bool)
    : (res: (Option<Registry>, Reply))
    ensures handler.None? ==> res == (None, NoHandler(newOnly))
    ensures handler.Some? ==>
      && res.0 == Some(LoadAll(Empty, files, load).0)
      && res.1.FullReport? && res.1.newOnly == newOnly
      && res.1.reloaded + res.1.failed == |files|
      && res.1.reloaded == CountRegistrable(files, load)
  {
    match handler
    case None => (None, NoHandler(newOnly))
    case Some(_) =>
      var (r', n) := LoadAll(Empty, files, load);
      (Some(r'), FullReport(newOnly, n, |files| - n, ListFirst(ResultLines(files, load), REPORT_LIMIT)))
  }

  /** `$reload` as written: a single reload never gets past `require.resolve`. */
  function RunAsWritten(handler: Option<Registry>, dir: seq<string>, args: seq<string>, load: Loader)
    : (res: (Option<Registry>, Reply))
    ensures ModeOf(args).Single? ==> res.0 == handler && (res.1.FileNotFound? || res.1 == ReloadError(args[1], REQUIRE_UNDEFINED))
    ensures ModeOf(args).Full? ==> res == FullBranch(handler, CommandFiles(dir), load, ModeOf(args).newOnly)
  {
    var files := CommandFiles(dir);
    match ModeOf(args)
    case Single(t) =>
      if t + ".js" !in files then (handler, FileNotFound(t + ".js"))
      else (handler, ReloadError(t, REQUIRE_UNDEFINED))
    case Full(newOnly) => FullBranch(handler, files, load, newOnly)
  }

  /** The single-reload branch once the file has been imported. */
  function SingleFrom(handler: Option<Registry>, t: string, l: Load): (res: (Option<Registry>, Reply))
    ensures !Registrable(l) ==> res.0 == handler
    ensures Registrable(l) ==> res.1.Reloaded? && res.1.name == l.command.name
    ensures Registrable(l) && handler.Some? ==> res.0 == Some(Register(Unregister(handler.value, t).0, l.command))
  {
    match l
    case Raises(m) => (handler, ReloadError(t, m))
    case Exports(c) =>
      if c.name == "" then (handler, LoadFailed(t + ".js"))
      else
        var h' := if handler.Some? then Some(Register(Unregister(handler.value, t).0, c)) else handler;
        var description := if c.description != "" then c.description else "No description";
        var category := if c.category != "" then c.category else DEFAULT_CATEGORY;
        (h', Reloaded(c.name, description, category))
  }

  /**
    `$reload` without the cache clearing. A single reload of a listed file
    unregisters the target name and registers the file's export when it has a
    name; a file that is not a candidate is refused before anything is loaded.
   */
  function Run(handler: Option<Registry>, dir: seq<string>, args: seq<string>, load: Loader)
    : (res: (Option<Registry>, Reply))
    ensures ModeOf(args).Single? && args[1] + ".js" !in CommandFiles(dir) ==>
      res == (handler, FileNotFound(args[1] + ".js"))
    ensures ModeOf(args).Single? && !Registrable(load(args[1] + ".js")) ==> res.0 == handler
    ensures ModeOf(args).Single? && args[1] + ".js" in CommandFiles(dir) && Registrable(load(args[1] + ".js")) ==>
      && res.1.Reloaded? && res.1.name == load(args[1] + ".js").command.name
      && (handler.Some? ==> res.0 == Some(Register(Unregister(handler.value, args[1]).0, load(args[1] + ".js").command)))
    ensures ModeOf(args).Full? ==> res == FullBranch(handler, CommandFiles(dir), load, ModeOf(args).newOnly)
  {
    var files := CommandFiles(dir);
    match ModeOf(args)
    case Single(t) =>
      var f := t + ".js";
      if f !in files then (handler, FileNotFound(f))
      else
        SingleFrom(handler, t, load(f))
    case Full(newOnly) => FullBranch(handler, files, load, newOnly)
  }

  /**
    `$reload single <name>` as written answers with the ReferenceError and
    leaves the registry alone even for a listed file with a valid export, which
    the corrected command reloads.
   */
  lemma SingleReloadLost(r: Registry, dir: seq<string>, t: string, load: Loader)
    requires t + ".js" in dir && t != [] && t[0] != '_'
    requires Registrable(load(t + ".js"))
    ensures RunAsWritten(Some(r), dir, ["single", t], load) == (Some(r), ReloadError(t, REQUIRE_UNDEFINED))
    ensures Run(Some(r), dir, ["single", t], load).0 == Some(Register(Unregister(r, t).0, load(t + ".js").command))
  {
    var f := t + ".js";
    assert f[|f| - 3..] == ".js";
    assert f[0] == t[0];
    assert f in CommandFiles(dir);
    assert ModeOf(["single", t]) == Single(t);
  }

  /** What the program stores in `global.commandHandler`: nothing. */
  const GLOBAL_HANDLER: Option<Registry> := None

  /**
    `$reload` acting on the handler argument of its execute function, which
    `execute` builds from the registry's own maps and equips with `register`,
    `unregister` and `clear` for this purpose. The registry is always there, so
    the reply never reports a missing handler.
   */
  function RunWithHandler(r: Registry, dir: seq<string>, args: seq<string>, load: Loader)
    : (res: (Registry, Reply))
    ensures !res.1.NoHandler?
    ensures ModeOf(args).Full? ==>
      && res.0 == LoadAll(Empty, CommandFiles(dir), load).0
      && res.1.FullReport? && res.1.newOnly == ModeOf(args).newOnly
      && res.1.reloaded == CountRegistrable(CommandFiles(dir), load)
      && res.1.reloaded + res.1.failed == |CommandFiles(dir)|
    ensures ModeOf(args).Single? && args[1] + ".js" in CommandFiles(dir) && Registrable(load(args[1] + ".js")) ==>
      res.0 == Register(Unregister(r, args[1]).0, load(args[1] + ".js").command)
    ensures ModeOf(args).Single? && !(args[1] + ".js" in CommandFiles(dir) && Registrable(load(args[1] + ".js"))) ==>
      res.0 == r
  {
    var (h, rep) := Run(Some(r), dir, args, load);
    (if h.Some? then h.value else r, rep)
  }

  /**
    A full `$reload` in the running bot finds no global handler and reloads
    nothing, while the same request through the handler argument rebuilds the
    registry from the command files.
   */
  lemma FullReloadLost(r: Registry, dir: seq<string>, args: seq<string>, load: Loader)
    requires ModeOf(args).Full?
    ensures RunAsWritten(GLOBAL_HANDLER, dir, args, load) == (None, NoHandler(ModeOf(args).newOnly))
    ensures RunWithHandler(r, dir, args, load).1.FullReport?
    ensures RunWithHandler(r, dir, args, load).0 == LoadAll(Empty, CommandFiles(dir), load).0
  {
  }

  /** Any mode other than a targeted "single", "new" included, clears and reloads everything. */
  lemma OtherModesReloadAll(r: Registry, dir: seq<string>, args: seq<string>, load: Loader)
    requires !(|args| >= 2 && args[0] == "single")
    ensures Run(Some(r), dir, args, load).0 == Some(LoadAll(Empty, CommandFiles(dir), load).0)
    ensures Run(Some(r), dir, args, load) == RunAsWritten(Some(r), dir, args, load)
  {
  }

  /** The `$reload` descriptor. */
  const RELOAD: Command := CreateCommand("reload", Options(
    Some(["refresh", "restartcmds", "rc"]),
    Some(30),
    Some("Reload commands dynamically (for development)"),
    Some([SUPER_USER]),
    Some("administration"),
    Some("private"),
    Some("$reload | $reload single ping | $reload new")))

  /** `$reload` runs only for the super-user in a private chat, and then at most once per 30 seconds per sender. */
  lemma ReloadGate(chatId: string, sender: string, tier: string, now: int)
    ensures Check(RELOAD, chatId, sender, tier, now).Admitted? <==> tier == SUPER_USER && !IsGroupChat(chatId)
    ensures tier != SUPER_USER ==> Check(RELOAD, chatId, sender, tier, now) == Rejected(RequiresMessage([SUPER_USER], tier))
    ensures Check(RELOAD, chatId, sender, tier, now).Admitted? ==>
      Check(RELOAD, chatId, sender, tier, now).stamped.stamps == map[sender := now]
  {
  }
}
