/** The code parser's tables in the protocol of `SharedCache`: whatever the processes and the server do,
    a table entry is what a new parser would find. */
module CodeSharing {
  import opened CodeCache
  import opened CodeResults
  import opened SharedCache
  import opened Wrappers

  /** Pickling of cache lines, which reads back what it wrote. */
  datatype Pickler = Pickler(dumpLine: Line -> string, loadLine: string -> Line,
                             dumpExecs: set<string> -> string, loadExecs: string -> set<string>)
  {
    ghost predicate Valid() {
      (forall l :: loadLine(dumpLine(l)) == l) && forall e :: loadExecs(dumpExecs(e)) == e
    }

    function Dumped(t: Tables): Data {
      [map k | k in t.python :: dumpLine(t.python[k]), map k | k in t.shell :: dumpExecs(t.shell[k])]
    }

    function Loaded(d: Data): Tables
      requires |d| == 2
    {
      Tables(map k | k in d[0] :: loadLine(d[0][k]), map k | k in d[1] :: loadExecs(d[1][k]))
    }

    /** `init_cache`: nothing is taken from an unreadable file or from another version. */
    function InitCache(main: Content, version: int): (t: Tables)
      requires main.Saved? && main.version == version ==> |main.data| == 2
    {
      if main.Saved? && main.version == version then Loaded(main.data) else Tables(map[], map[])
    }
  }

  lemma LoadedDumped(pk: Pickler, t: Tables)
    requires pk.Valid()
    ensures pk.Loaded(pk.Dumped(t)) == t
  {
  }

  ghost predicate SoundData(env: Env, pk: Pickler, d: Data) { |d| == 2 && pk.Loaded(d).Sound(env) }

  ghost predicate SoundContent(env: Env, pk: Pickler, c: Content, version: int) {
    c.Saved? && c.version == version ==> SoundData(env, pk, c.data)
  }

  /** Every table of this version is sound: the server's, those on disk and those about to be written. */
  ghost predicate SoundSystem(env: Env, pk: Pickler, s: System) {
    && SoundData(env, pk, s.data) && SoundContent(env, pk, s.main, s.version)
    && (forall f :: f in s.files ==> SoundContent(env, pk, s.files[f], s.version))
    && forall w :: 0 <= w < |s.workers| && !s.workers[w].pc.Idle? ==> SoundData(env, pk, s.workers[w].extras)
  }

  lemma MergedIsSound(env: Env, pk: Pickler, source: Data, dest: Data)
    requires SoundData(env, pk, source) && SoundData(env, pk, dest)
    ensures SoundData(env, pk, MergeData(source, dest))
  {
    var d := MergeData(source, dest);
    assert d[0] == source[0] + dest[0] && d[1] == source[1] + dest[1];
    var a, b, c := pk.Loaded(source), pk.Loaded(dest), pk.Loaded(d);
    forall code | env.bbhash(code) in c.python
      ensures PythonTruth(env, code) == Some(c.python[env.bbhash(code)])
    {
      var h := env.bbhash(code);
      assert c.python[h] == if h in b.python then b.python[h] else a.python[h];
    }
    forall code | env.bbhash(code) in c.shell
      ensures ShellTruth(env, code) == Some(c.shell[env.bbhash(code)])
    {
      var h := env.bbhash(code);
      assert c.shell[h] == if h in b.shell then b.shell[h] else a.shell[h];
    }
  }

  ghost predicate SoundStep(env: Env, pk: Pickler, step: Step) { step.Call? ==> SoundData(env, pk, step.extras) }

  lemma StepKeepsSound(env: Env, pk: Pickler, s: System, step: Step)
    requires WellSized(s) && Enabled(s, step) && SoundSystem(env, pk, s) && SoundStep(env, pk, step)
    ensures SoundSystem(env, pk, Apply(s, step))
  {
    hide SoundData;
    if step.MergeFile? {
      var f := s.merger.todo[0];
      if s.files[f].Saved? && s.files[f].version == s.version { MergedIsSound(env, pk, s.files[f].data, s.data); }
    }
  }

  // ---- a process ----

  datatype Request = ForPython(code: string) | ForShell(code: string)

  /** The extras of a process after it has parsed all this, with a new parser each time. */
  function ExtrasAfter(env: Env, main: Tables, requests: seq<Request>): Tables {
    if requests == [] then Tables(map[], map[])
    else
      var last, extras := requests[|requests| - 1], ExtrasAfter(env, main, requests[..|requests| - 1]);
      match last
      case ForPython(code) => ParsePython(env, FRESH_PYTHON, main, extras, code).extras
      case ForShell(code) => ParseShell(env, FRESH_SHELL, main, extras, code).extras
  }

  /** The process itself: a new parser for every piece of code, all with the one cache. */
  method ParseAll(cache: CodeParserCache, requests: seq<Request>)
    requires cache.Valid() && cache.Extras() == Tables(map[], map[])
    modifies cache`pythoncacheextras, cache`shellcacheextras, cache`pythoncachelines, cache`shellcachelines, cache.sets
    ensures cache.Valid() && cache.Main() == old(cache.Main())
    ensures cache.Extras() == ExtrasAfter(cache.env, cache.Main(), requests)
  {
    ghost var main := cache.Main();
    for i := 0 to |requests|
      invariant cache.Valid() && cache.Main() == main
      invariant cache.Extras() == ExtrasAfter(cache.env, main, requests[..i])
    {
      assert requests[..i + 1][..i] == requests[..i];
      ParseOne(cache, requests[i]);
    }
    assert requests[..|requests|] == requests;
  }

  method ParseOne(cache: CodeParserCache, request: Request)
    requires cache.Valid()
    modifies cache`pythoncacheextras, cache`shellcacheextras, cache`pythoncachelines, cache`shellcachelines, cache.sets
    ensures cache.Valid() && cache.Main() == old(cache.Main())
    ensures cache.Extras() ==
      match request
      case ForPython(code) => ParsePython(cache.env, FRESH_PYTHON, cache.Main(), old(cache.Extras()), code).extras
      case ForShell(code) => ParseShell(cache.env, FRESH_SHELL, cache.Main(), old(cache.Extras()), code).extras
  {
    match request {
      case ForPython(code) =>
        var p := new PythonParser();
        var _ := p.ParsePython(cache, code);
      case ForShell(code) =>
        var p := new ShellParser();
        var _ := p.ParseShell(cache, code);
    }
  }

  lemma {:induction false} ExtrasStaySound(env: Env, main: Tables, requests: seq<Request>)
    requires env.CollisionFree() && main.Sound(env)
    ensures ExtrasAfter(env, main, requests).Sound(env)
  {
    if requests != [] {
      var last, front := requests[|requests| - 1], requests[..|requests| - 1];
      ExtrasStaySound(env, main, front);
      var extras := ExtrasAfter(env, main, front);
      match last {
        case ForPython(code) => PythonResultIsTruth(env, main, extras, code);
        case ForShell(code) => ShellResultIsTruth(env, main, extras, code);
      }
    }
  }

  // ---- whole runs ----

  /** A process has loaded the main file that `t` has, and parsed all this: its extras, as it publishes them. */
  ghost predicate IsOwn(env: Env, pk: Pickler, t: System, requests: seq<Request>, extras: Data) {
    && (t.main.Saved? && t.main.version == t.version ==> |t.main.data| == 2)
    && extras == pk.Dumped(ExtrasAfter(env, pk.InitCache(t.main, t.version), requests))
  }

  /** Whoever publishes in this run has loaded the main file at some earlier point of it, and publishes
      what it has parsed since. */
  ghost predicate OwnCalls(env: Env, pk: Pickler, s: System, steps: seq<Step>)
    requires IsRun(s, steps)
  {
    forall i :: 0 <= i < |steps| && steps[i].Call? ==>
      exists j, requests :: 0 <= j <= i && IsRun(s, steps[..j]) &&
        IsOwn(env, pk, After(s, steps[..j]), requests, steps[i].extras)
  }

  lemma {:induction false} RunPrefix(s: System, steps: seq<Step>, n: nat)
    requires IsRun(s, steps) && n < |steps|
    ensures IsRun(s, steps[..n]) && IsRun(s, steps[..n + 1])
    ensures var t := After(s, steps[..n]);
            WellSized(t) && Enabled(t, steps[n]) && After(s, steps[..n + 1]) == Apply(t, steps[n])
    decreases n
  {
    hide WellSized, Enabled, Apply;
    if n > 0 {
      RunPrefix(Apply(s, steps[0]), steps[1..], n - 1);
      assert steps[..n][1..] == steps[1..][..n - 1] && steps[..n + 1][1..] == steps[1..][..n];
    } else {
      assert steps[..1][1..] == [] && steps[..0] == [];
    }
  }

  /** What a process publishes that has loaded a sound file is sound. */
  lemma OwnIsSound(env: Env, pk: Pickler, t: System, requests: seq<Request>, extras: Data)
    requires env.CollisionFree() && pk.Valid()
    requires SoundSystem(env, pk, t) && IsOwn(env, pk, t, requests, extras)
    ensures SoundData(env, pk, extras)
  {
    var main := pk.InitCache(t.main, t.version);
    ExtrasStaySound(env, main, requests);
    LoadedDumped(pk, ExtrasAfter(env, main, requests));
  }

  /** From a sound start, all tables are sound at every point of such a run. */
  lemma {:induction false} RunKeepsSound(env: Env, pk: Pickler, s: System, steps: seq<Step>, n: nat)
    requires env.CollisionFree() && pk.Valid() && SoundSystem(env, pk, s)
    requires IsRun(s, steps) && OwnCalls(env, pk, s, steps) && n <= |steps|
    ensures IsRun(s, steps[..n]) && SoundSystem(env, pk, After(s, steps[..n]))
  {
    hide SoundSystem, SoundData, IsOwn;
    if n > 0 {
      RunPrefix(s, steps, n - 1);
      RunKeepsSound(env, pk, s, steps, n - 1);
      var step := steps[n - 1];
      if step.Call? {
        var j, requests :| 0 <= j <= n - 1 && IsRun(s, steps[..j]) &&
          IsOwn(env, pk, After(s, steps[..j]), requests, step.extras);
        RunKeepsSound(env, pk, s, steps, j);
        OwnIsSound(env, pk, After(s, steps[..j]), requests, step.extras);
      }
      StepKeepsSound(env, pk, After(s, steps[..n - 1]), step);
    } else {
      assert steps[..0] == [];
    }
  }

  /** A process that loads the shared file after any such run, and has parsed whatever it has parsed,
      finds in a piece of code what it would find without any cache. */
  lemma EveryParseIsDirect(env: Env, pk: Pickler, s: System, steps: seq<Step>, requests: seq<Request>, code: string)
    requires env.CollisionFree() && pk.Valid() && SoundSystem(env, pk, s)
    requires IsRun(s, steps) && OwnCalls(env, pk, s, steps)
    ensures var t := After(s, steps);
            && SoundContent(env, pk, t.main, t.version)
            && var main := pk.InitCache(t.main, t.version);
            var extras := ExtrasAfter(env, main, requests);
            && ((exists c :: c in code && c !in SPACES) ==>
                  var r := ParsePython(env, FRESH_PYTHON, main, extras, code);
                  (if r.ok then Some(r.parser.Shows()) else None) == PythonTruth(env, code))
            && (var r := ParseShell(env, FRESH_SHELL, main, extras, code);
                (if r.ok then Some(r.parser.execs) else None) == ShellTruth(env, code))
  {
    RunKeepsSound(env, pk, s, steps, |steps|);
    assert steps[..|steps|] == steps;
    var t := After(s, steps);
    var main := pk.InitCache(t.main, t.version);
    ExtrasStaySound(env, main, requests);
    var extras := ExtrasAfter(env, main, requests);
    PythonResultIsTruth(env, main, extras, code);
    ShellResultIsTruth(env, main, extras, code);
  }
}
