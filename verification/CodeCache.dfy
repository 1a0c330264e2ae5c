/** poky/bitbake/lib/bb/codeparser.py: the parsers and their cache in one process. Lines are interned
    by hash, sets of names by the hash of the set. */
module CodeCache {
  import opened CodeResults
  import opened Lists
  import opened NameOrder

  datatype Part = Number(n: int) | Text(s: string)

  /** Python's `hash` of a set of names and of a tuple. */
  datatype Hashes = Hashes(ofSet: set<string> -> int, ofTuple: seq<Part> -> int) {
    ghost predicate CollisionFree() {
      (forall a, b :: ofSet(a) == ofSet(b) ==> a == b) && forall a, b :: ofTuple(a) == ofTuple(b) ==> a == b
    }

    /** The tuple that a cache line is hashed by. */
    ghost function LineParts(l: Line): seq<Part> {
      [Number(ofSet(l.refs)), Number(ofSet(l.execs))] + ContainsParts(l.contains, Sorted(l.contains.Keys))
    }

    ghost function ContainsParts(contains: map<string, set<string>>, names: seq<string>): seq<Part>
      requires forall n :: n in names ==> n in contains
    {
      if names == [] then []
      else
        var n := names[|names| - 1];
        ContainsParts(contains, names[..|names| - 1]) + [Text(n), Number(ofSet(contains[n]))]
    }
  }

  lemma {:induction false} ContainsPartsInjective(h: Hashes, a: map<string, set<string>>, b: map<string, set<string>>,
                                                  s: seq<string>, t: seq<string>)
    requires h.CollisionFree() && (forall n :: n in s ==> n in a) && (forall n :: n in t ==> n in b)
    requires h.ContainsParts(a, s) == h.ContainsParts(b, t)
    ensures s == t && forall n :: n in s ==> a[n] == b[n]
  {
    if s != [] && t != [] {
      var m, n := s[|s| - 1], t[|t| - 1];
      var front, front' := h.ContainsParts(a, s[..|s| - 1]), h.ContainsParts(b, t[..|t| - 1]);
      var end, end' := [Text(m), Number(h.ofSet(a[m]))], [Text(n), Number(h.ofSet(b[n]))];
      assert front == (front + end)[..|front + end| - 2] == (front' + end')[..|front' + end'| - 2] == front';
      assert end == (front + end)[|front|..] == (front' + end')[|front|..] == end';
      assert end[0] == end'[0] && end[1] == end'[1];
      ContainsPartsInjective(h, a, b, s[..|s| - 1], t[..|t| - 1]);
    }
  }

  /** Lines with one hash are equal: the order in which the words are found does not matter. */
  lemma LinePartsInjective(h: Hashes, a: Line, b: Line)
    requires h.CollisionFree() && h.ofTuple(h.LineParts(a)) == h.ofTuple(h.LineParts(b))
    ensures a == b
  {
    var s, t := Sorted(a.contains.Keys), Sorted(b.contains.Keys);
    var p, q := h.LineParts(a), h.LineParts(b);
    assert p[0] == q[0] && p[1] == q[1];
    assert p[2..] == h.ContainsParts(a.contains, s) && q[2..] == h.ContainsParts(b.contains, t);
    ContainsPartsInjective(h, a.contains, b.contains, s, t);
    assert a.contains.Keys == Elements(s) == b.contains.Keys;
    forall n | n in a.contains ensures a.contains[n] == b.contains[n] { assert n in Elements(s); }
  }

  class SetCache {
    const hashes: Hashes
    var setcache: map<int, set<string>>

    ghost predicate Valid()
      reads this
    {
      forall h :: h in setcache ==> hashes.ofSet(setcache[h]) == h
    }

    constructor (hashes: Hashes)
      ensures this.hashes == hashes && Valid() && setcache == map[]
    {
      this.hashes, setcache := hashes, map[];
    }

    /** Interning gives the set itself. */
    method InternSet(items: set<string>) returns (s: set<string>)
      requires Valid() && hashes.CollisionFree()
      modifies this
      ensures Valid() && s == items
      ensures hashes.ofSet(items) in setcache
      ensures forall h :: h in old(setcache) ==> h in setcache && setcache[h] == old(setcache)[h]
    {
      var h := hashes.ofSet(items);
      if h in setcache {
        return setcache[h];
      }
      setcache := setcache[h := items];
      return items;
    }
  }

  class CodeParserCache {
    const env: Env
    const sets: SetCache
    var pythoncache: map<string, Line>
    var shellcache: map<string, set<string>>
    var pythoncacheextras: map<string, Line>
    var shellcacheextras: map<string, set<string>>
    var pythoncachelines: map<int, Line>
    var shellcachelines: map<int, set<string>>

    ghost predicate Valid()
      reads this, sets
    {
      && sets.Valid() && sets.hashes.CollisionFree()
      && (forall h :: h in pythoncachelines ==> sets.hashes.ofTuple(sets.hashes.LineParts(pythoncachelines[h])) == h)
      && forall h :: h in shellcachelines ==> sets.hashes.ofSet(shellcachelines[h]) == h
    }

    ghost function Main(): Tables
      reads this
    {
      Tables(pythoncache, shellcache)
    }

    ghost function Extras(): Tables
      reads this
    {
      Tables(pythoncacheextras, shellcacheextras)
    }

    constructor (env: Env, sets: SetCache, python: map<string, Line>, shell: map<string, set<string>>)
      requires sets.Valid() && sets.hashes.CollisionFree()
      ensures Valid() && this.env == env && this.sets == sets
      ensures Main() == Tables(python, shell) && Extras() == Tables(map[], map[])
    {
      this.env, this.sets := env, sets;
      pythoncache, shellcache, pythoncacheextras, shellcacheextras := python, shell, map[], map[];
      pythoncachelines, shellcachelines := map[], map[];
    }

    /** The line with these contents, shared with earlier equal ones. */
    method NewPythonCacheLine(refs: set<string>, execs: set<string>, contains: map<string, set<string>>)
      returns (line: Line)
      requires Valid()
      modifies `pythoncachelines, sets
      ensures Valid() && line == Line(refs, execs, contains)
    {
      var r := sets.InternSet(refs);
      var e := sets.InternSet(execs);
      var c := InternAll(contains);
      line := Line(r, e, c);
      var h := HashLine(line);
      if h in pythoncachelines {
        LinePartsInjective(sets.hashes, pythoncachelines[h], line);
        return pythoncachelines[h];
      }
      pythoncachelines := pythoncachelines[h := line];
    }

    method InternAll(contains: map<string, set<string>>) returns (interned: map<string, set<string>>)
      requires sets.Valid() && sets.hashes.CollisionFree()
      modifies sets
      ensures sets.Valid() && interned == contains
    {
      interned := map[];
      var todo := contains.Keys;
      while todo != {}
        invariant sets.Valid() && todo <= contains.Keys
        invariant forall c :: c in interned <==> c in contains && c !in todo
        invariant forall c :: c in interned ==> interned[c] == contains[c]
        decreases todo
      {
        var c :| c in todo;
        var words := sets.InternSet(contains[c]);
        interned := interned[c := words];
        todo := todo - {c};
      }
    }

    /** `pythonCacheLine.__hash__` */
    method HashLine(line: Line) returns (h: int)
      ensures h == sets.hashes.ofTuple(sets.hashes.LineParts(line))
    {
      var names := SortNames(line.contains.Keys);
      assert forall n :: n in names ==> n in Elements(names);
      var start := [Number(sets.hashes.ofSet(line.refs)), Number(sets.hashes.ofSet(line.execs))];
      var l := start;
      for i := 0 to |names|
        invariant l == start + sets.hashes.ContainsParts(line.contains, names[..i])
      {
        PrefixGrows(names, i);
        var next := [Text(names[i]), Number(sets.hashes.ofSet(line.contains[names[i]]))];
        AppendAssociates(start, sets.hashes.ContainsParts(line.contains, names[..i]), next);
        l := l + next;
      }
      assert names[..|names|] == names;
      h := sets.hashes.ofTuple(l);
    }

    method NewShellCacheLine(execs: set<string>) returns (line: set<string>)
      requires Valid()
      modifies `shellcachelines, sets
      ensures Valid() && line == execs
    {
      line := sets.InternSet(execs);
      var h := sets.hashes.ofSet(line);
      if h in shellcachelines {
        return shellcachelines[h];
      }
      shellcachelines := shellcachelines[h := line];
    }
  }

  class PythonParser {
    var references: set<string>
    var execs: set<string>
    var varExecs: set<string>
    var contains: map<string, set<string>>

    ghost function State(): Python
      reads this
    {
      Python(references, execs, varExecs, contains)
    }

    constructor ()
      ensures State() == FRESH_PYTHON
    {
      references, execs, varExecs, contains := {}, {}, {}, map[];
    }

    method VisitCall(call: Call)
      modifies this
      ensures State() == Visit(old(State()), call)
    {
      match call {
        case Reads(name) => references := references + {name};
        case Checks(name, words) => AddWords(name, words);
        case Expands(found) =>
          references := references + found.refs;
          execs := execs + found.execs;
          AddAll(found.contains);
        case Runs(name) => varExecs := varExecs + {name};
        case Calls(name) => execs := execs + {name};
        case Unknown =>
      }
    }

    method AddWords(name: string, words: set<string>)
      modifies `contains
      ensures contains == old(contains)[name := At(old(contains), name) + words]
    {
      if name !in contains {
        contains := contains[name := {}];
      }
      contains := contains[name := contains[name] + words];
    }

    method AddAll(found: map<string, set<string>>)
      modifies `contains
      ensures contains == Joined(old(contains), found)
    {
      var todo := found.Keys;
      while todo != {}
        invariant todo <= found.Keys
        invariant forall n :: n in contains <==> n in old(contains) || (n in found && n !in todo)
        invariant forall n :: n in contains ==>
          contains[n] == At(old(contains), n) + (if n in todo then {} else At(found, n))
        decreases todo
      {
        var n :| n in todo;
        AddWords(n, found[n]);
        todo := todo - {n};
      }
    }

    /** False if the code does not compile; the exception leaves parser and cache alone. */
    method ParsePython(cache: CodeParserCache, node: string) returns (ok: bool)
      requires cache.Valid()
      modifies this, cache`pythoncacheextras, cache`pythoncachelines, cache.sets
      ensures cache.Valid() && cache.Main() == old(cache.Main())
      ensures Outcome(State(), cache.Extras(), ok) ==
        CodeResults.ParsePython(cache.env, old(State()), cache.Main(), old(cache.Extras()), node)
    {
      ok := true;
      if Blank(node) {
        return;
      }
      var h := cache.env.bbhash(node);
      if h in cache.pythoncache {
        TakeLine(cache.pythoncache[h]);
        return;
      }
      if h in cache.pythoncacheextras {
        TakeLine(cache.pythoncacheextras[h]);
        return;
      }
      var code := cache.env.python(node);
      if code.None? {
        return false;
      }
      VisitCalls(code.value);
      execs := execs + varExecs;
      var line := cache.NewPythonCacheLine(references, execs, contains);
      cache.pythoncacheextras := cache.pythoncacheextras[h := line];
    }

    method VisitCalls(calls: seq<Call>)
      modifies this
      ensures State() == VisitAll(old(State()), calls)
    {
      for i := 0 to |calls|
        invariant State() == VisitAll(old(State()), calls[..i])
      {
        PrefixGrows(calls, i);
        VisitCall(calls[i]);
      }
      assert calls[..|calls|] == calls;
    }

    method TakeLine(line: Line)
      modifies this
      ensures State() == old(State()).Take(line)
    {
      references, execs, contains := line.refs, line.execs, map[];
      var todo := line.contains.Keys;
      while todo != {}
        invariant todo <= line.contains.Keys
        invariant references == line.refs && execs == line.execs && varExecs == old(varExecs)
        invariant forall c :: c in contains <==> c in line.contains && c !in todo
        invariant forall c :: c in contains ==> contains[c] == line.contains[c]
        decreases todo
      {
        var c :| c in todo;
        contains := contains[c := line.contains[c]];
        todo := todo - {c};
      }
    }
  }

  class ShellParser {
    var funcdefs: set<string>
    var allexecs: set<string>
    var execs: set<string>

    ghost function State(): Shell
      reads this
    {
      Shell(funcdefs, allexecs, execs)
    }

    constructor ()
      ensures State() == FRESH_SHELL
    {
      funcdefs, allexecs, execs := {}, {}, {};
    }

    method ParseShell(cache: CodeParserCache, value: string) returns (ok: bool)
      requires cache.Valid()
      modifies this, cache`shellcacheextras, cache`shellcachelines, cache.sets
      ensures cache.Valid() && cache.Main() == old(cache.Main())
      ensures Outcome(State(), cache.Extras(), ok) ==
        CodeResults.ParseShell(cache.env, old(State()), cache.Main(), old(cache.Extras()), value)
    {
      ok := true;
      var h := cache.env.bbhash(value);
      if h in cache.shellcache {
        execs := cache.shellcache[h];
        return;
      }
      if h in cache.shellcacheextras {
        execs := cache.shellcacheextras[h];
        return;
      }
      var code := cache.env.shell(value);
      if code.None? {
        return false;
      }
      ProcessTokens(code.value);
      execs := set cmd | cmd in allexecs && cmd !in funcdefs;
      assert execs == allexecs - funcdefs;
      var line := cache.NewShellCacheLine(execs);
      cache.shellcacheextras := cache.shellcacheextras[h := line];
    }

    method ProcessTokens(commands: seq<Command>)
      modifies `funcdefs, `allexecs
      ensures funcdefs == old(funcdefs) + Defined(commands) && allexecs == old(allexecs) + Executed(commands)
    {
      for i := 0 to |commands|
        invariant forall n :: n in funcdefs <==> n in old(funcdefs) || Defines(n) in commands[..i]
        invariant forall n :: n in allexecs <==> n in old(allexecs) || Executes(n) in commands[..i]
      {
        PrefixGrows(commands, i);
        match commands[i] {
          case Defines(name) => funcdefs := funcdefs + {name};
          case Executes(name) => allexecs := allexecs + {name};
        }
      }
      assert commands[..|commands|] == commands;
      forall n ensures n in Defined(commands) <==> Defines(n) in commands { assert Defines(n).name == n; }
      forall n ensures n in Executed(commands) <==> Executes(n) in commands { assert Executes(n).name == n; }
    }
  }
}
