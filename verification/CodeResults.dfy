/** poky/bitbake/lib/bb/codeparser.py: what parsing a piece of code finds, with the cache tables and
    without them. Hashing, compiling and pickling are parameters. */
module CodeResults {
  import opened Wrappers

  /** What a cache line holds for Python code. */
  datatype Line = Line(refs: set<string>, execs: set<string>, contains: map<string, set<string>>)

  /** A call in Python code, as `visit_Call` classifies it. */
  datatype Call =
    | Reads(name: string)                       // getVar and its kin, a flag as `name[flag]`
    | Checks(name: string, words: set<string>)  // contains, contains_any
    | Expands(found: Line)                      // expand of a literal
    | Runs(name: string)                        // exec_func, exec_task
    | Calls(name: string)
    | Unknown

  /** What shell code does, in the order in which it is found. */
  datatype Command = Defines(name: string) | Executes(name: string)

  /** The code outside this module: hashes, the parsers, and pickling of lines. */
  datatype Env = Env(
    bbhash: string -> string,
    python: string -> Option<seq<Call>>,
    shell: string -> Option<seq<Command>>)
  {
    /** No two pieces of code have one hash. */
    ghost predicate CollisionFree() { forall a, b :: bbhash(a) == bbhash(b) ==> a == b }
  }

  // ---- parsers ----

  datatype Python = Python(references: set<string>, execs: set<string>, varExecs: set<string>,
                           contains: map<string, set<string>>)
  {
    /** What the callers of a parser look at. */
    function Shows(): Line { Line(references, execs, contains) }
    /** All that has been found and will be looked at after a miss. */
    function Found(): Line { Line(references, execs + varExecs, contains) }
    function Take(l: Line): Python { this.(references := l.refs, execs := l.execs, contains := l.contains) }
  }

  datatype Shell = Shell(funcdefs: set<string>, allexecs: set<string>, execs: set<string>)

  const FRESH_PYTHON := Python({}, {}, {}, map[])
  const FRESH_SHELL := Shell({}, {}, {})

  function At(contains: map<string, set<string>>, name: string): set<string> {
    if name in contains then contains[name] else {}
  }

  function Joined(a: map<string, set<string>>, b: map<string, set<string>>): map<string, set<string>> {
    map n | n in a.Keys + b.Keys :: At(a, n) + At(b, n)
  }

  function Both(a: Line, b: Line): Line { Line(a.refs + b.refs, a.execs + b.execs, Joined(a.contains, b.contains)) }

  function Visit(p: Python, call: Call): Python {
    match call
    case Reads(name) => p.(references := p.references + {name})
    case Checks(name, words) => p.(contains := p.contains[name := At(p.contains, name) + words])
    case Expands(l) =>
      p.(references := p.references + l.refs, execs := p.execs + l.execs, contains := Joined(p.contains, l.contains))
    case Runs(name) => p.(varExecs := p.varExecs + {name})
    case Calls(name) => p.(execs := p.execs + {name})
    case Unknown => p
  }

  function VisitAll(p: Python, calls: seq<Call>): Python {
    if calls == [] then p else Visit(VisitAll(p, calls[..|calls| - 1]), calls[|calls| - 1])
  }

  function Defined(commands: seq<Command>): set<string> { set c | c in commands && c.Defines? :: c.name }
  function Executed(commands: seq<Command>): set<string> { set c | c in commands && c.Executes? :: c.name }

  const SPACES: set<char> := {' ', '\t', '\n', '\r', '\U{0B}', '\U{0C}', '\U{1C}', '\U{1D}', '\U{1E}', '\U{1F}',
    '\U{85}', '\U{A0}', '\U{1680}', '\U{2000}', '\U{2001}', '\U{2002}', '\U{2003}', '\U{2004}', '\U{2005}',
    '\U{2006}', '\U{2007}', '\U{2008}', '\U{2009}', '\U{200A}', '\U{2028}', '\U{2029}', '\U{202F}', '\U{205F}',
    '\U{3000}'}

  function StripLeft(s: string): string {
    if s != "" && s[0] in SPACES then StripLeft(s[1..]) else s
  }

  function StripRight(s: string): string {
    if s != "" && s[|s| - 1] in SPACES then StripRight(s[..|s| - 1]) else s
  }

  /** `not code.strip()` */
  predicate Blank(code: string) { StripRight(StripLeft(code)) == "" }

  /** White space by code points. */
  lemma SpacesAre(c: char)
    ensures c in SPACES <==>
      var n := c as int;
      || 0x9 <= n <= 0xD || 0x1C <= n <= 0x20 || n in {0x85, 0xA0, 0x1680, 0x202F, 0x205F, 0x3000}
      || 0x2000 <= n <= 0x200A || 0x2028 <= n <= 0x2029
  {
  }

  /** Blank is what consists of white space, wherever it stands; one other character is enough. */
  lemma BlankIff(code: string)
    ensures Blank(code) <==> forall c :: c in code ==> c in SPACES
  {
    StripLeftIs(code);
    StripRightIs(StripLeft(code));
  }

  lemma {:induction false} StripLeftIs(s: string)
    ensures forall c :: c !in SPACES ==> (c in StripLeft(s) <==> c in s)
    ensures StripLeft(s) == "" <==> forall c :: c in s ==> c in SPACES
  {
    if s != "" && s[0] in SPACES {
      StripLeftIs(s[1..]);
      assert s == [s[0]] + s[1..];
    }
  }

  lemma {:induction false} StripRightIs(s: string)
    ensures StripRight(s) == "" <==> forall c :: c in s ==> c in SPACES
  {
    if s != "" && s[|s| - 1] in SPACES {
      StripRightIs(s[..|s| - 1]);
      assert s == s[..|s| - 1] + [s[|s| - 1]];
    }
  }

  /** What a new parser finds in the code, without any cache; nothing if the code does not parse. */
  function PythonTruth(env: Env, code: string): Option<Line> {
    match env.python(code)
    case Some(calls) => Some(VisitAll(FRESH_PYTHON, calls).Found())
    case None => None
  }

  function ShellTruth(env: Env, code: string): Option<set<string>> {
    match env.shell(code)
    case Some(commands) => Some(Executed(commands) - Defined(commands))
    case None => None
  }

  // ---- tables ----

  datatype Tables = Tables(python: map<string, Line>, shell: map<string, set<string>>) {
    /** Every entry is what a new parser would find. */
    ghost predicate Sound(env: Env) {
      && (forall code :: env.bbhash(code) in python ==> PythonTruth(env, code) == Some(python[env.bbhash(code)]))
      && forall code :: env.bbhash(code) in shell ==> ShellTruth(env, code) == Some(shell[env.bbhash(code)])
    }
  }

  datatype Outcome<P> = Outcome(parser: P, extras: Tables, ok: bool)

  /** `parse_python`: the parser, the extras and whether the code parsed. */
  function ParsePython(env: Env, p: Python, main: Tables, extras: Tables, code: string): Outcome<Python> {
    var h := env.bbhash(code);
    if Blank(code) then Outcome(p, extras, true)
    else if h in main.python then Outcome(p.Take(main.python[h]), extras, true)
    else if h in extras.python then Outcome(p.Take(extras.python[h]), extras, true)
    else
      match env.python(code)
      case None => Outcome(p, extras, false)
      case Some(calls) =>
        var q := VisitAll(p, calls);
        Outcome(q.(execs := q.Found().execs), extras.(python := extras.python[h := q.Found()]), true)
  }

  /** `parse_shell` */
  function ParseShell(env: Env, p: Shell, main: Tables, extras: Tables, code: string): Outcome<Shell> {
    var h := env.bbhash(code);
    if h in main.shell then Outcome(p.(execs := main.shell[h]), extras, true)
    else if h in extras.shell then Outcome(p.(execs := extras.shell[h]), extras, true)
    else
      match env.shell(code)
      case None => Outcome(p, extras, false)
      case Some(commands) =>
        var q := Shell(p.funcdefs + Defined(commands), p.allexecs + Executed(commands), p.execs);
        var execs := q.allexecs - q.funcdefs;
        Outcome(q.(execs := execs), extras.(shell := extras.shell[h := execs]), true)
  }

  // ---- a new parser finds the same on a hit and on a miss ----

  /** A new parser shows what the code holds, wherever it comes from, and leaves the tables sound. */
  lemma PythonResultIsTruth(env: Env, main: Tables, extras: Tables, code: string)
    requires env.CollisionFree() && main.Sound(env) && extras.Sound(env)
    ensures var r := ParsePython(env, FRESH_PYTHON, main, extras, code);
            && r.extras.Sound(env)
            && ((forall c :: c in code ==> c in SPACES) ==> r.ok && r.parser.Shows() == Line({}, {}, map[]))
            && ((exists c :: c in code && c !in SPACES) ==>
                  && (r.ok <==> PythonTruth(env, code).Some?)
                  && (r.ok ==> Some(r.parser.Shows()) == PythonTruth(env, code)))
  {
    BlankIff(code);
    hide Blank;
  }

  lemma ShellResultIsTruth(env: Env, main: Tables, extras: Tables, code: string)
    requires env.CollisionFree() && main.Sound(env) && extras.Sound(env)
    ensures var r := ParseShell(env, FRESH_SHELL, main, extras, code);
            && r.extras.Sound(env)
            && (r.ok <==> ShellTruth(env, code).Some?)
            && (r.ok ==> Some(r.parser.execs) == ShellTruth(env, code))
  {
    var r := ParseShell(env, FRESH_SHELL, main, extras, code);
    assert env.shell(code).Some? ==> var commands := env.shell(code).value;
      {} + Executed(commands) == Executed(commands) && {} + Defined(commands) == Defined(commands);
    forall other | env.bbhash(other) in r.extras.shell
      ensures ShellTruth(env, other) == Some(r.extras.shell[env.bbhash(other)])
    {
      assert env.bbhash(other) == env.bbhash(code) ==> other == code;
    }
  }

  // ---- a parser that is used again ----

  /** What a parser has found is kept: visiting more calls adds what a new parser would find in them. */
  lemma {:induction false} VisitsAdd(p: Python, calls: seq<Call>)
    ensures VisitAll(p, calls).Found() == Both(p.Found(), VisitAll(FRESH_PYTHON, calls).Found())
  {
    if calls == [] {
      NothingAdded(p.Found());
    } else {
      var front, call := calls[..|calls| - 1], calls[|calls| - 1];
      VisitsAdd(p, front);
      VisitAdds(VisitAll(p, front), call);
      VisitAdds(VisitAll(FRESH_PYTHON, front), call);
      BothAssociates(p.Found(), VisitAll(FRESH_PYTHON, front).Found(), Adds(call));
    }
  }

  /** What one call adds. */
  function Adds(call: Call): Line {
    match call
    case Reads(name) => Line({name}, {}, map[])
    case Checks(name, words) => Line({}, {}, map[name := words])
    case Expands(l) => l
    case Runs(name) => Line({}, {name}, map[])
    case Calls(name) => Line({}, {name}, map[])
    case Unknown => Line({}, {}, map[])
  }

  lemma VisitAdds(p: Python, call: Call)
    ensures Visit(p, call).Found() == Both(p.Found(), Adds(call))
  {
    NothingAdded(p.Found());
    var q := Visit(p, call).Found();
    assert q.execs == p.Found().execs + Adds(call).execs;
    assert q.contains == Joined(p.contains, Adds(call).contains);
  }

  lemma NothingAdded(l: Line)
    ensures Both(l, Line({}, {}, map[])) == l
  {
    forall n | n in l.contains ensures At(l.contains, n) + At(map[], n) == l.contains[n] {
      assert l.contains[n] + {} == l.contains[n];
    }
  }

  lemma BothAssociates(a: Line, b: Line, c: Line)
    ensures Both(Both(a, b), c) == Both(a, Both(b, c))
  {
    SetsAssociate(a.refs, b.refs, c.refs);
    SetsAssociate(a.execs, b.execs, c.execs);
    JoinedAssociates(a.contains, b.contains, c.contains);
    hide Joined;
  }

  lemma SetsAssociate<T>(a: set<T>, b: set<T>, c: set<T>)
    ensures (a + b) + c == a + (b + c)
  {
  }

  lemma JoinedAt(a: map<string, set<string>>, b: map<string, set<string>>, n: string)
    ensures At(Joined(a, b), n) == At(a, n) + At(b, n)
    ensures n in Joined(a, b) <==> n in a || n in b
  {
  }

  lemma SameMaps(l: map<string, set<string>>, r: map<string, set<string>>)
    requires forall n :: (n in l <==> n in r) && At(l, n) == At(r, n)
    ensures l == r
  {
  }

  lemma JoinedAssociates(a: map<string, set<string>>, b: map<string, set<string>>, c: map<string, set<string>>)
    ensures Joined(Joined(a, b), c) == Joined(a, Joined(b, c))
  {
    var l, r := Joined(Joined(a, b), c), Joined(a, Joined(b, c));
    hide Joined, At;
    forall n ensures (n in l <==> n in r) && At(l, n) == At(r, n) {
      JoinedAt(a, b, n);
      JoinedAt(b, c, n);
      JoinedAt(Joined(a, b), c, n);
      JoinedAt(a, Joined(b, c), n);
      SetsAssociate(At(a, n), At(b, n), At(c, n));
    }
    SameMaps(l, r);
  }

  /** Everything found before is found again. */
  predicate Within(a: Line, b: Line) {
    && a.refs <= b.refs && a.execs <= b.execs
    && forall n :: n in a.contains ==> n in b.contains && a.contains[n] <= b.contains[n]
  }

  lemma WithinIff(a: Line, b: Line)
    ensures Both(a, b) == b <==> Within(a, b)
  {
    if Both(a, b) == b {
      forall n | n in a.contains ensures n in b.contains && a.contains[n] <= b.contains[n] {
        assert n in Both(a, b).contains;
        assert Both(a, b).contains[n] == a.contains[n] + At(b.contains, n);
      }
      assert a.refs <= b.refs && a.execs <= b.execs;
    }
    if Within(a, b) {
      assert a.refs + b.refs == b.refs && a.execs + b.execs == b.execs;
      forall n | n in Joined(a.contains, b.contains)
        ensures n in b.contains && At(a.contains, n) + b.contains[n] == b.contains[n] {}
    }
  }

  /** A used parser that misses the tables stores a right line exactly if the code holds everything
      the parser had found before. */
  lemma UsedPythonIff(env: Env, p: Python, main: Tables, extras: Tables, code: string)
    requires env.CollisionFree() && main.Sound(env) && extras.Sound(env)
    requires exists c :: c in code && c !in SPACES
    requires env.bbhash(code) !in main.python && env.bbhash(code) !in extras.python && PythonTruth(env, code).Some?
    ensures ParsePython(env, p, main, extras, code).extras.Sound(env)
      <==> Within(p.Found(), PythonTruth(env, code).value)
  {
    BlankIff(code);
    hide Blank;
    var calls, h := env.python(code).value, env.bbhash(code);
    var r := ParsePython(env, p, main, extras, code);
    VisitsAdd(p, calls);
    WithinIff(p.Found(), PythonTruth(env, code).value);
    assert r.extras.python[h] == Both(p.Found(), PythonTruth(env, code).value);
    if r.extras.python[h] == PythonTruth(env, code).value {
      forall other | env.bbhash(other) in r.extras.python
        ensures PythonTruth(env, other) == Some(r.extras.python[env.bbhash(other)])
      {
        assert env.bbhash(other) == h ==> other == code;
      }
    }
  }

  lemma UsedShellIff(env: Env, p: Shell, main: Tables, extras: Tables, code: string)
    requires env.CollisionFree() && main.Sound(env) && extras.Sound(env)
    requires env.bbhash(code) !in main.shell && env.bbhash(code) !in extras.shell && ShellTruth(env, code).Some?
    ensures ParseShell(env, p, main, extras, code).extras.Sound(env) <==>
      && p.funcdefs !! ShellTruth(env, code).value
      && p.allexecs - p.funcdefs - Defined(env.shell(code).value) <= ShellTruth(env, code).value
  {
    var commands, h := env.shell(code).value, env.bbhash(code);
    var truth := Executed(commands) - Defined(commands);
    var r := ParseShell(env, p, main, extras, code);
    var stored := r.extras.shell[h];
    assert stored == truth <==> p.funcdefs !! truth && p.allexecs - p.funcdefs - Defined(commands) <= truth by {
      forall x ensures x in stored <==>
        (x in p.allexecs || x in Executed(commands)) && x !in p.funcdefs && x !in Defined(commands) {}
    }
    if stored == truth {
      forall other | env.bbhash(other) in r.extras.shell
        ensures ShellTruth(env, other) == Some(r.extras.shell[env.bbhash(other)])
      {
        assert env.bbhash(other) == h ==> other == code;
      }
    }
  }

  /** Known before the parse: a parser stores a right line for every code it may miss on, whatever the
      parser library finds in codes, exactly if it has found nothing yet. */
  lemma AlwaysRightPythonIff(p: Python)
    ensures (forall env: Env, main: Tables, extras: Tables, code: string ::
              env.CollisionFree() && main.Sound(env) && extras.Sound(env) && (exists c :: c in code && c !in SPACES)
              && env.bbhash(code) !in main.python && env.bbhash(code) !in extras.python && PythonTruth(env, code).Some?
              ==> ParsePython(env, p, main, extras, code).extras.Sound(env))
      <==> p.Found() == Line({}, {}, map[])
  {
    if p.Found() == Line({}, {}, map[]) {
      forall env: Env, main: Tables, extras: Tables, code: string |
        env.CollisionFree() && main.Sound(env) && extras.Sound(env) && (exists c :: c in code && c !in SPACES)
        && env.bbhash(code) !in main.python && env.bbhash(code) !in extras.python && PythonTruth(env, code).Some?
        ensures ParsePython(env, p, main, extras, code).extras.Sound(env)
      {
        UsedPythonIff(env, p, main, extras, code);
      }
    } else {
      var env, none := QuietEnv(), Tables(map[], map[]);
      assert none.Sound(env) && env.CollisionFree();
      assert 'x' in "x";
      UsedPythonIff(env, p, none, none, "x");
      assert PythonTruth(env, "x").value == Line({}, {}, map[]);
      NothingWithin(p.Found());
    }
  }

  lemma NothingWithin(l: Line)
    ensures Within(l, Line({}, {}, map[])) <==> l == Line({}, {}, map[])
  {
    if Within(l, Line({}, {}, map[])) { assert l.contains.Keys == {}; }
  }

  /** Code in which nothing is found. */
  function QuietEnv(): Env { Env(code => code, code => Some([]), code => Some([])) }

  /** The same for shell code; a parser that has only run commands or only defined functions is used, too. */
  lemma AlwaysRightShellIff(p: Shell)
    ensures (forall env: Env, main: Tables, extras: Tables, code: string ::
              env.CollisionFree() && main.Sound(env) && extras.Sound(env)
              && env.bbhash(code) !in main.shell && env.bbhash(code) !in extras.shell && ShellTruth(env, code).Some?
              ==> ParseShell(env, p, main, extras, code).extras.Sound(env))
      <==> p.funcdefs == {} && p.allexecs == {}
  {
    if p.funcdefs == {} && p.allexecs == {} {
      forall env: Env, main: Tables, extras: Tables, code: string |
        env.CollisionFree() && main.Sound(env) && extras.Sound(env)
        && env.bbhash(code) !in main.shell && env.bbhash(code) !in extras.shell && ShellTruth(env, code).Some?
        ensures ParseShell(env, p, main, extras, code).extras.Sound(env)
      {
        UsedShellIff(env, p, main, extras, code);
      }
    } else {
      var none := Tables(map[], map[]);
      if x :| x in p.funcdefs {
        var env := CommandEnv(x);
        assert none.Sound(env) && env.CollisionFree();
        UsedShellIff(env, p, none, none, "x");
        assert x in Executed([Executes(x)]) by { assert Executes(x).name == x; }
        assert x in ShellTruth(env, "x").value;
      } else {
        var env := QuietEnv();
        assert none.Sound(env) && env.CollisionFree();
        UsedShellIff(env, p, none, none, "x");
        assert ShellTruth(env, "x").value == {};
      }
    }
  }

  /** Every code runs this one command. */
  function CommandEnv(x: string): Env { Env(code => code, code => Some([]), code => Some([Executes(x)])) }

  /** A parser that has found a reference, and then parses code without any. */
  lemma UsedParserStoresWrong()
    ensures var p, none := FRESH_PYTHON.(references := {"A"}), Tables(map[], map[]);
            var r := ParsePython(QuietEnv(), p, none, none, "pass");
            && PythonTruth(QuietEnv(), "pass") == Some(Line({}, {}, map[]))
            && r.extras.python == map["pass" := Line({"A"}, {}, map[])]
  {
    assert "pass"[0] == 'p' && 'p' in "pass";
    BlankIff("pass");
    assert {} + FRESH_PYTHON.varExecs == {};
  }
}
