/** Collecting host aliases from an ssh configuration file and the files it
    includes (internal/command/hosts.go, readSSHConfig). */
module IncludeWalk {
  import opened Text
  import SshConfig

  /** Recursion stops here even when the include graph has a cycle. */
  const DEPTH_LIMIT: nat := 16

  predicate Forbidden(c: char) { c in "*?!|@[]\r\n\t " }

  /** The literal aliases addSSHHost keeps. */
  predicate Allowed(host: string) {
    host != "" && host[0] != '-' && forall i :: 0 <= i < |host| ==> !Forbidden(host[i])
  }

  /** An alias that is kept is not empty, is no option, and is neither a pattern nor
      anything else than one literal word. */
  lemma AllowedExactly(host: string)
    ensures Allowed(host) <==>
            host != "" && !HasPrefix(host, "-") && forall c :: c in "*?!|@[]\r\n\t " ==> c !in host
  {
    if host != "" {
      assert host[..1] == [host[0]];
    }
  }

  /** What one line contributes, in the order in which the walk meets it. */
  datatype Event = Alias(host: string) | Include(path: string)

  predicate Distinct(items: seq<string>) {
    forall i, j :: 0 <= i < j < |items| ==> items[i] != items[j]
  }

  /** The results of a walk: the two sets it fills, the order of its file reads
      and the cleaned paths it turned away because of the depth limit. */
  datatype Found = Found(hosts: set<string>, visited: set<string>, readLog: seq<string>, refused: set<string>)

  const NOTHING := Found({}, {}, [], {})

  /** The files a walk can see, as lines by cleaned path, and the path functions
      of the platform. A path that is not a key cannot be read. */
  datatype Site = Site(
    files: map<string, seq<string>>,
    home: string,
    clean: string -> string,
    join: seq<string> -> string,
    glob: string -> seq<string>)
  {
    /** Relative patterns start at ~/.ssh, not at the including file. */
    function IncludePaths(pattern: string): seq<string> {
      if HasPrefix(pattern, "~/") then glob(join([home, pattern[2..]]))
      else if !HasPrefix(pattern, "/") then glob(join([home, ".ssh", pattern]))
      else glob(pattern)
    }

    function Aliases(hosts: seq<string>): seq<Event> {
      if hosts == [] then [] else [Alias(hosts[0])] + Aliases(hosts[1..])
    }

    function Includes(paths: seq<string>): seq<Event> {
      if paths == [] then [] else [Include(paths[0])] + Includes(paths[1..])
    }

    function Patterns(patterns: seq<string>): seq<Event> {
      if patterns == [] then [] else Includes(IncludePaths(patterns[0])) + Patterns(patterns[1..])
    }

    function LineEvents(line: string): seq<Event> {
      var directive := SshConfig.Parse(line);
      if directive.key == "host" then Aliases(directive.values)
      else if directive.key == "include" then Patterns(directive.values)
      else []
    }

    function Events(lines: seq<string>): seq<Event> {
      if lines == [] then [] else LineEvents(lines[0]) + Events(lines[1..])
    }

    function Budget(depth: nat): nat {
      if depth < DEPTH_LIMIT then DEPTH_LIMIT - depth else 0
    }

    function Walk(path: string, depth: nat, found: Found): Found
      decreases Budget(depth), 1, 0
    {
      if depth >= DEPTH_LIMIT then found.(refused := found.refused + {clean(path)})
      else
        var path := clean(path);
        if path in found.visited then found
        else
          var reading := found.(visited := found.visited + {path}, readLog := found.readLog + [path]);
          if path !in files then reading
          else Process(Events(files[path]), depth, reading)
    }

    function Process(events: seq<Event>, depth: nat, found: Found): Found
      requires depth < DEPTH_LIMIT
      decreases Budget(depth), 0, |events|
    {
      if events == [] then found
      else Process(events[1..], depth, Meet(events[0], depth, found))
    }

    function Meet(event: Event, depth: nat, found: Found): Found
      requires depth < DEPTH_LIMIT
      decreases Budget(depth), 0, 0
    {
      match event
      case Alias(host) => if Allowed(host) then found.(hosts := found.hosts + {host}) else found
      case Include(path) => Walk(path, depth + 1, found)
    }

    lemma AliasesOf(values: seq<string>)
      ensures Aliases(values) == seq(|values|, i requires 0 <= i < |values| => Alias(values[i]))
    {
      if values != [] {
        AliasesOf(values[1..]);
      }
    }

    lemma IncludesOf(paths: seq<string>)
      ensures Includes(paths) == seq(|paths|, i requires 0 <= i < |paths| => Include(paths[i]))
    {
      if paths != [] {
        IncludesOf(paths[1..]);
      }
    }

    lemma {:induction false} IncludesConcat(a: seq<string>, b: seq<string>)
      ensures Includes(a + b) == Includes(a) + Includes(b)
      decreases |a|
    {
      if a == [] {
        assert a + b == b;
      } else {
        assert (a + b)[1..] == a[1..] + b;
        IncludesConcat(a[1..], b);
      }
    }

    /** The files that a pattern stands for: from the home directory, from the root, or
        else from ~/.ssh. */
    ghost predicate Stands(pattern: string, paths: seq<string>) {
      && (HasPrefix(pattern, "~/") ==> paths == glob(join([home, pattern[2..]])))
      && (HasPrefix(pattern, "/") ==> paths == glob(pattern))
      && (!HasPrefix(pattern, "~/") && !HasPrefix(pattern, "/") ==> paths == glob(join([home, ".ssh", pattern])))
    }

    lemma {:induction false} PatternsOf(values: seq<string>, paths: seq<seq<string>>)
      requires |paths| == |values| && forall i :: 0 <= i < |values| ==> Stands(values[i], paths[i])
      ensures Patterns(values) == Includes(Flatten(paths))
      decreases |values|
    {
      if values != [] {
        assert IncludePaths(values[0]) == paths[0];
        assert forall i :: 0 <= i < |values| - 1 ==> Stands(values[1..][i], paths[1..][i]);
        PatternsOf(values[1..], paths[1..]);
        IncludesConcat(paths[0], Flatten(paths[1..]));
      }
    }

    /** A line whose key is host, in any case and spelling, contributes exactly its
        values, as aliases and in order. */
    lemma HostLineContributes(spelling: SshConfig.Spelling, blank: string, key: string, first: string,
                              others: seq<string>, gaps: seq<string>, trailer: string)
      requires SshConfig.SpellingInput(blank, key, first, others, gaps, trailer) && first[0] != '='
      requires SshConfig.Spells(key, "host")
      ensures var values := [first] + others;
              LineEvents(SshConfig.Spell(spelling, blank, key, first, others, gaps, trailer))
              == seq(|values|, i requires 0 <= i < |values| => Alias(values[i]))
    {
      SshConfig.SpellingsAgree(spelling, blank, key, first, others, gaps, trailer);
      SshConfig.KeywordsInAnyCase(key);
      AliasesOf([first] + others);
    }

    /** A line whose key is include contributes exactly the files that its values stand
        for, in order. */
    lemma IncludeLineContributes(spelling: SshConfig.Spelling, blank: string, key: string, first: string,
                                 others: seq<string>, gaps: seq<string>, trailer: string, paths: seq<seq<string>>)
      requires SshConfig.SpellingInput(blank, key, first, others, gaps, trailer) && first[0] != '='
      requires SshConfig.Spells(key, "include") && |paths| == |others| + 1
      requires forall i :: 0 <= i < |paths| ==> Stands(([first] + others)[i], paths[i])
      ensures var files := Flatten(paths);
              LineEvents(SshConfig.Spell(spelling, blank, key, first, others, gaps, trailer))
              == seq(|files|, i requires 0 <= i < |files| => Include(files[i]))
    {
      SshConfig.SpellingsAgree(spelling, blank, key, first, others, gaps, trailer);
      SshConfig.KeywordsInAnyCase(key);
      assert SshConfig.Lower(key)[0] == 'i' && "host"[0] == 'h';
      PatternsOf([first] + others, paths);
      IncludesOf(Flatten(paths));
    }

    /** A line with any other key contributes nothing. */
    lemma OtherLineContributesNothing(spelling: SshConfig.Spelling, blank: string, key: string, first: string,
                                      others: seq<string>, gaps: seq<string>, trailer: string)
      requires SshConfig.SpellingInput(blank, key, first, others, gaps, trailer) && first[0] != '='
      requires !SshConfig.Spells(key, "host") && !SshConfig.Spells(key, "include")
      ensures LineEvents(SshConfig.Spell(spelling, blank, key, first, others, gaps, trailer)) == []
    {
      SshConfig.SpellingsAgree(spelling, blank, key, first, others, gaps, trailer);
      SshConfig.KeywordsInAnyCase(key);
    }

    /** The walk completion starts with: empty sets, depth zero. */
    function Collect(root: string): Found { Walk(root, 0, NOTHING) }

    lemma {:induction false} ProcessConcat(first: seq<Event>, second: seq<Event>, depth: nat, found: Found)
      requires depth < DEPTH_LIMIT
      ensures Process(first + second, depth, found) == Process(second, depth, Process(first, depth, found))
      decreases |first|
    {
      if first == [] {
        assert first + second == second;
      } else {
        assert (first + second)[1..] == first[1..] + second;
        ProcessConcat(first[1..], second, depth, Meet(first[0], depth, found));
      }
    }

    // The include graph, independently of any walk.

    ghost predicate Leads(from: string, to: string) {
      from in files && exists path :: Include(path) in Events(files[from]) && clean(path) == to
    }

    ghost predicate Mentions(from: string, host: string) {
      from in files && Alias(host) in Events(files[from]) && Allowed(host)
    }

    ghost predicate IsChain(root: string, chain: seq<string>) {
      && chain != [] && chain[0] == clean(root)
      && forall i :: 0 < i < |chain| ==> Linked(chain, i)
    }

    ghost predicate Linked(chain: seq<string>, i: nat)
      requires 0 < i < |chain|
    {
      Leads(chain[i - 1], chain[i])
    }

    ghost predicate Reachable(root: string, path: string) {
      exists chain :: IsChain(root, chain) && chain[|chain| - 1] == path
    }

    /** The readable files that includes lead to from the root. */
    ghost function ReachableFiles(root: string): set<string> {
      set path | path in files && Reachable(root, path)
    }

    ghost predicate Closed(paths: iset<string>) {
      forall from, to :: from in paths && Leads(from, to) ==> to in paths
    }

    lemma ChainStaysInside(root: string, chain: seq<string>, paths: iset<string>)
      requires IsChain(root, chain) && Closed(paths) && clean(root) in paths
      ensures chain[|chain| - 1] in paths
      decreases |chain|
    {
      if |chain| > 1 {
        var shorter := chain[..|chain| - 1];
        forall i | 0 < i < |shorter| ensures Linked(shorter, i) {
          assert Linked(chain, i);
        }
        ChainStaysInside(root, shorter, paths);
        assert chain[|chain| - 1] == chain[|shorter|];
        assert Linked(chain, |shorter|);
      }
    }

    lemma ReachableStep(root: string, from: string, to: string)
      requires Reachable(root, from) && Leads(from, to)
      ensures Reachable(root, to)
    {
      var chain :| IsChain(root, chain) && chain[|chain| - 1] == from;
      AppendLink(root, chain, to);
      assert (chain + [to])[|chain|] == to;
    }

    lemma AppendLink(root: string, chain: seq<string>, next: string)
      requires IsChain(root, chain) && Leads(chain[|chain| - 1], next)
      ensures IsChain(root, chain + [next])
    {
      var longer := chain + [next];
      forall i | 0 < i < |longer| ensures Linked(longer, i) {
        assert i < |chain| ==> Linked(chain, i);
      }
    }

    lemma ReachableIsClosed(root: string)
      ensures clean(root) in (iset path | Reachable(root, path))
      ensures Closed(iset path | Reachable(root, path))
    {
      var start := [clean(root)];
      assert IsChain(root, start) && start[|start| - 1] == clean(root);
      forall from, to | Reachable(root, from) && Leads(from, to)
        ensures Reachable(root, to)
      {
        ReachableStep(root, from, to);
      }
    }

    // What every walk keeps.

    ghost predicate Grows(before: Found, after: Found) {
      before.hosts <= after.hosts && before.visited <= after.visited && before.refused <= after.refused
    }

    lemma {:induction false} WalkGrows(path: string, depth: nat, found: Found)
      ensures Grows(found, Walk(path, depth, found))
      ensures depth < DEPTH_LIMIT ==> clean(path) in Walk(path, depth, found).visited
      decreases Budget(depth), 1, 0
    {
      var cleaned := clean(path);
      if depth < DEPTH_LIMIT && cleaned !in found.visited && cleaned in files {
        ProcessGrows(Events(files[cleaned]), depth,
          found.(visited := found.visited + {cleaned}, readLog := found.readLog + [cleaned]));
      }
    }

    lemma {:induction false} ProcessGrows(events: seq<Event>, depth: nat, found: Found)
      requires depth < DEPTH_LIMIT
      ensures Grows(found, Process(events, depth, found))
      decreases Budget(depth), 0, |events|
    {
      if events != [] {
        if events[0].Include? {
          WalkGrows(events[0].path, depth + 1, found);
        }
        ProcessGrows(events[1..], depth, Meet(events[0], depth, found));
      }
    }

    /** Reads have no repetition and mark exactly the visited paths. */
    ghost predicate ReadOnce(found: Found) {
      && Distinct(found.readLog)
      && (forall path :: path in found.visited <==> path in found.readLog)
    }

    lemma {:induction false} WalkReadsOnce(path: string, depth: nat, found: Found)
      requires ReadOnce(found)
      ensures ReadOnce(Walk(path, depth, found))
      decreases Budget(depth), 1, 0
    {
      var cleaned := clean(path);
      if depth < DEPTH_LIMIT && cleaned !in found.visited {
        var reading := found.(visited := found.visited + {cleaned}, readLog := found.readLog + [cleaned]);
        assert ReadOnce(reading);
        if cleaned in files {
          ProcessReadsOnce(Events(files[cleaned]), depth, reading);
        }
      }
    }

    lemma {:induction false} ProcessReadsOnce(events: seq<Event>, depth: nat, found: Found)
      requires depth < DEPTH_LIMIT && ReadOnce(found)
      ensures ReadOnce(Process(events, depth, found))
      decreases Budget(depth), 0, |events|
    {
      if events != [] {
        if events[0].Include? {
          WalkReadsOnce(events[0].path, depth + 1, found);
        }
        ProcessReadsOnce(events[1..], depth, Meet(events[0], depth, found));
      }
    }

    /** The results stay inside a closed set of paths that holds the root. */
    ghost predicate Within(found: Found, paths: iset<string>) {
      && (forall path :: path in found.visited || path in found.refused ==> path in paths)
      && (forall host :: host in found.hosts ==> exists path :: path in paths && Mentions(path, host))
    }

    lemma {:induction false} WalkStaysWithin(path: string, depth: nat, found: Found, paths: iset<string>)
      requires Closed(paths) && clean(path) in paths && Within(found, paths)
      ensures Within(Walk(path, depth, found), paths)
      decreases Budget(depth), 1, 0
    {
      var cleaned := clean(path);
      if depth < DEPTH_LIMIT && cleaned !in found.visited && cleaned in files {
        ProcessStaysWithin(cleaned, Events(files[cleaned]), depth,
          found.(visited := found.visited + {cleaned}, readLog := found.readLog + [cleaned]), paths);
      }
    }

    lemma AliasStaysWithin(from: string, host: string, found: Found, paths: iset<string>)
      requires from in paths && from in files && Alias(host) in Events(files[from]) && Within(found, paths)
      requires Allowed(host)
      ensures Within(found.(hosts := found.hosts + {host}), paths)
    {
      assert Mentions(from, host);
    }

    lemma {:induction false} ProcessStaysWithin(from: string, events: seq<Event>, depth: nat,
                                                found: Found, paths: iset<string>)
      requires depth < DEPTH_LIMIT && Closed(paths) && Within(found, paths)
      requires from in paths && from in files
      requires forall event :: event in events ==> event in Events(files[from])
      ensures Within(Process(events, depth, found), paths)
      decreases Budget(depth), 0, |events|
    {
      if events != [] {
        var event, next := events[0], Meet(events[0], depth, found);
        assert event in events;
        assert Within(next, paths) by {
          match event {
            case Alias(host) =>
              if Allowed(host) {
                AliasStaysWithin(from, host, found, paths);
              }
            case Include(path) =>
              assert Leads(from, clean(path));
              WalkStaysWithin(path, depth + 1, found, paths);
          }
        }
        ProcessStaysWithin(from, events[1..], depth, next, paths);
      }
    }

    /** An event whose effect is present: its alias collected, its file visited
        or turned away at the depth limit. */
    ghost predicate Handled(event: Event, found: Found) {
      match event
      case Alias(host) => Allowed(host) ==> host in found.hosts
      case Include(path) => clean(path) in found.visited || clean(path) in found.refused
    }

    ghost predicate AllHandled(events: seq<Event>, found: Found) {
      forall i :: 0 <= i < |events| ==> Handled(events[i], found)
    }

    /** Every visited file except those still being read has been used up. */
    ghost predicate Settled(found: Found, active: set<string>) {
      forall path :: path in found.visited && path in files && path !in active
                     ==> AllHandled(Events(files[path]), found)
    }

    lemma SettledGrows(events: seq<Event>, before: Found, after: Found)
      requires AllHandled(events, before) && Grows(before, after)
      ensures AllHandled(events, after)
    {
      forall i | 0 <= i < |events| ensures Handled(events[i], after) {
        assert Handled(events[i], before);
      }
    }

    lemma {:induction false} WalkSettles(path: string, depth: nat, found: Found, active: set<string>)
      requires Settled(found, active)
      ensures Settled(Walk(path, depth, found), active)
      ensures Handled(Include(path), Walk(path, depth, found))
      decreases Budget(depth), 1, 0
    {
      var cleaned := clean(path);
      WalkGrows(path, depth, found);
      if depth < DEPTH_LIMIT && cleaned !in found.visited {
        var reading := found.(visited := found.visited + {cleaned}, readLog := found.readLog + [cleaned]);
        if cleaned in files {
          assert Settled(reading, active + {cleaned}) by {
            forall p | p in reading.visited && p in files && p !in active + {cleaned}
              ensures AllHandled(Events(files[p]), reading)
            {
              SettledGrows(Events(files[p]), found, reading);
            }
          }
          ProcessSettles(Events(files[cleaned]), depth, reading, active + {cleaned});
        } else {
          forall p | p in reading.visited && p in files && p !in active
            ensures AllHandled(Events(files[p]), reading)
          {
            SettledGrows(Events(files[p]), found, reading);
          }
        }
      } else if depth >= DEPTH_LIMIT {
        var turned := Walk(path, depth, found);
        forall p | p in turned.visited && p in files && p !in active
          ensures AllHandled(Events(files[p]), turned)
        {
          SettledGrows(Events(files[p]), found, turned);
        }
      }
    }

    lemma {:induction false} ProcessSettles(events: seq<Event>, depth: nat, found: Found, active: set<string>)
      requires depth < DEPTH_LIMIT && Settled(found, active)
      ensures Settled(Process(events, depth, found), active)
      ensures AllHandled(events, Process(events, depth, found))
      decreases Budget(depth), 0, |events|
    {
      if events != [] {
        var next := Meet(events[0], depth, found);
        match events[0] {
          case Alias(host) =>
            forall p | p in next.visited && p in files && p !in active
              ensures AllHandled(Events(files[p]), next)
            {
              SettledGrows(Events(files[p]), found, next);
            }
          case Include(path) =>
            WalkSettles(path, depth + 1, found, active);
        }
        assert Handled(events[0], next);
        ProcessSettles(events[1..], depth, next, active);
        ProcessGrows(events[1..], depth, next);
        var last := Process(events[1..], depth, next);
        forall i | 0 <= i < |events| ensures Handled(events[i], last) {
          if i > 0 {
            assert Handled(events[1..][i - 1], last);
          }
        }
      }
    }

    ghost predicate NothingLost(found: Found) {
      forall path :: path in found.refused && path in files ==> path in found.visited
    }

    /** A chain of readable files without repetition. */
    ghost predicate IsFileChain(root: string, chain: seq<string>) {
      && IsChain(root, chain)
      && Distinct(chain)
      && forall i :: 0 <= i < |chain| ==> chain[i] in files
    }

    /** What can be checked on the files alone: no chain of distinct files is longer
        than the depth limit. */
    ghost predicate ChainsAreShort(root: string) {
      forall chain :: IsFileChain(root, chain) ==> |chain| <= DEPTH_LIMIT
    }

    /** The files being read, from the root down, and the path met next. */
    ghost predicate IsActive(root: string, active: seq<string>, next: string, found: Found) {
      && (forall i :: 0 <= i < |active| ==> active[i] in found.visited)
      && if active == [] then next == clean(root)
         else IsFileChain(root, active) && Leads(active[|active| - 1], next)
    }

    lemma LongerChain(root: string, active: seq<string>, next: string, found: Found)
      requires IsActive(root, active, next, found) && next in files && next !in found.visited
      ensures IsFileChain(root, active + [next])
    {
      var chain := active + [next];
      assert next !in active;
      assert forall i :: 0 <= i < |active| ==> chain[i] == active[i];
      if active != [] {
        AppendLink(root, active, next);
      }
    }

    /** Where chains are short, the limit turns away no file that is not being read
        already: it would be the seventeenth of a chain. */
    lemma {:induction false} WalkLosesNothing(root: string, path: string, depth: nat, found: Found,
                                              active: seq<string>)
      requires ChainsAreShort(root) && |active| == depth && IsActive(root, active, clean(path), found)
      requires NothingLost(found)
      ensures NothingLost(Walk(path, depth, found))
      decreases Budget(depth), 1, 0
    {
      var cleaned := clean(path);
      if cleaned in files && cleaned !in found.visited {
        LongerChain(root, active, cleaned, found);
        assert depth < DEPTH_LIMIT;
        ProcessLosesNothing(root, Events(files[cleaned]), depth,
          found.(visited := found.visited + {cleaned}, readLog := found.readLog + [cleaned]),
          active + [cleaned]);
      }
    }

    lemma {:induction false} ProcessLosesNothing(root: string, events: seq<Event>, depth: nat, found: Found,
                                                 active: seq<string>)
      requires depth < DEPTH_LIMIT && ChainsAreShort(root) && |active| == depth + 1
      requires IsFileChain(root, active) && forall i :: 0 <= i < |active| ==> active[i] in found.visited
      requires forall event :: event in events ==> event in Events(files[active[depth]])
      requires NothingLost(found)
      ensures NothingLost(Process(events, depth, found))
      decreases Budget(depth), 0, |events|
    {
      if events != [] {
        assert events[0] in events;
        if events[0].Include? {
          NextIsActive(root, events[0], active, found);
        }
        MeetLosesNothing(root, events[0], depth, found, active);
        ProcessLosesNothing(root, events[1..], depth, Meet(events[0], depth, found), active);
      }
    }

    lemma {:induction false} MeetLosesNothing(root: string, event: Event, depth: nat, found: Found,
                                              active: seq<string>)
      requires depth < DEPTH_LIMIT && ChainsAreShort(root) && |active| == depth + 1
      requires event.Include? ==> IsActive(root, active, clean(event.path), found)
      requires NothingLost(found)
      ensures NothingLost(Meet(event, depth, found)) && found.visited <= Meet(event, depth, found).visited
      decreases Budget(depth), 0, 0
    {
      if event.Include? {
        WalkGrows(event.path, depth + 1, found);
        WalkLosesNothing(root, event.path, depth + 1, found, active);
      }
    }

    lemma NextIsActive(root: string, event: Event, active: seq<string>, found: Found)
      requires active != [] && IsFileChain(root, active)
      requires forall i :: 0 <= i < |active| ==> active[i] in found.visited
      requires event.Include? && event in Events(files[active[|active| - 1]])
      ensures IsActive(root, active, clean(event.path), found)
    {
      assert Leads(active[|active| - 1], clean(event.path));
    }

    /** The path ends some chain of at most the given length. */
    ghost predicate ReachableIn(root: string, path: string, length: nat) {
      exists chain :: IsChain(root, chain) && chain[|chain| - 1] == path && |chain| <= length
    }

    lemma ReachableInStep(root: string, from: string, to: string, length: nat)
      requires ReachableIn(root, from, length) && Leads(from, to)
      ensures ReachableIn(root, to, length + 1)
    {
      var chain :| IsChain(root, chain) && chain[|chain| - 1] == from && |chain| <= length;
      AppendLink(root, chain, to);
      assert (chain + [to])[|chain|] == to;
    }

    ghost predicate AllShallow(root: string, found: Found) {
      forall path :: path in found.visited ==> ReachableIn(root, path, DEPTH_LIMIT)
    }

    /** Includes lead from each layer into the next one. */
    ghost predicate StepsUp(layers: nat -> iset<string>) {
      forall depth: nat, from, to :: StepUp(layers, depth, from, to)
    }

    ghost predicate StepUp(layers: nat -> iset<string>, depth: nat, from: string, to: string) {
      from in layers(depth) && Leads(from, to) ==> to in layers(depth + 1)
    }

    /** Every layer that a walk gets to lies in the whole. */
    ghost predicate AreInside(layers: nat -> iset<string>, whole: iset<string>) {
      forall depth: nat, path :: depth < DEPTH_LIMIT && path in layers(depth) ==> path in whole
    }

    ghost predicate Layered(layers: nat -> iset<string>, whole: iset<string>) {
      StepsUp(layers) && AreInside(layers, whole)
    }

    ghost predicate VisitedIn(found: Found, whole: iset<string>) {
      forall path :: path in found.visited ==> path in whole
    }

    /** A walk stays in the layers below the limit. */
    lemma {:induction false} WalkStaysLayered(layers: nat -> iset<string>, whole: iset<string>, path: string,
                                              depth: nat, found: Found)
      requires Layered(layers, whole) && clean(path) in layers(depth) && VisitedIn(found, whole)
      ensures VisitedIn(Walk(path, depth, found), whole)
      decreases Budget(depth), 1, 0
    {
      var cleaned := clean(path);
      if depth < DEPTH_LIMIT && cleaned !in found.visited && cleaned in files {
        ProcessStaysLayered(layers, whole, cleaned, Events(files[cleaned]), depth,
          found.(visited := found.visited + {cleaned}, readLog := found.readLog + [cleaned]));
      }
    }

    lemma {:induction false} ProcessStaysLayered(layers: nat -> iset<string>, whole: iset<string>, from: string,
                                                 events: seq<Event>, depth: nat, found: Found)
      requires depth < DEPTH_LIMIT && Layered(layers, whole) && from in layers(depth) && from in files
      requires forall event :: event in events ==> event in Events(files[from])
      requires VisitedIn(found, whole)
      ensures VisitedIn(Process(events, depth, found), whole)
      decreases Budget(depth), 0, |events|
    {
      if events != [] {
        assert events[0] in events;
        if events[0].Include? {
          assert Leads(from, clean(events[0].path));
          assert StepUp(layers, depth, from, clean(events[0].path));
          WalkStaysLayered(layers, whole, events[0].path, depth + 1, found);
        }
        ProcessStaysLayered(layers, whole, from, events[1..], depth, Meet(events[0], depth, found));
      }
    }

    lemma LinkBeforeCut(root: string, chain: seq<string>, i: nat, j: nat, k: nat)
      requires IsChain(root, chain) && i < j < |chain| && chain[i] == chain[j] && 0 < k <= i
      ensures Linked(chain[..i] + chain[j..], k)
    {
      assert Linked(chain, k);
    }

    lemma LinkAfterCut(root: string, chain: seq<string>, i: nat, j: nat, k: nat)
      requires IsChain(root, chain) && i < j < |chain| && i < k < i + |chain| - j
      ensures Linked(chain[..i] + chain[j..], k)
    {
      assert Linked(chain, k - i + j);
    }

    lemma CutDetour(root: string, chain: seq<string>, i: nat, j: nat) returns (shorter: seq<string>)
      requires IsChain(root, chain) && i < j < |chain| && chain[i] == chain[j]
      ensures IsChain(root, shorter) && shorter[|shorter| - 1] == chain[|chain| - 1] && |shorter| < |chain|
    {
      shorter := chain[..i] + chain[j..];
      forall k | 0 < k < |shorter| ensures Linked(shorter, k) {
        if k <= i {
          LinkBeforeCut(root, chain, i, j, k);
        } else {
          LinkAfterCut(root, chain, i, j, k);
        }
      }
    }

    lemma ChainOfFiles(root: string, chain: seq<string>)
      requires IsChain(root, chain) && chain[|chain| - 1] in files
      ensures forall i :: 0 <= i < |chain| ==> chain[i] in files
    {
      forall i | 0 <= i < |chain| ensures chain[i] in files {
        if i < |chain| - 1 {
          assert Linked(chain, i + 1);
        }
      }
    }

    /** Leaving out the detours of a chain gives one without repetition. */
    lemma {:induction false} WithoutDetours(root: string, chain: seq<string>) returns (direct: seq<string>)
      requires IsChain(root, chain) && chain[|chain| - 1] in files
      ensures IsFileChain(root, direct) && direct[|direct| - 1] == chain[|chain| - 1] && |direct| <= |chain|
      decreases |chain|
    {
      if !Distinct(chain) {
        var i, j :| 0 <= i < j < |chain| && chain[i] == chain[j];
        var shorter := CutDetour(root, chain, i, j);
        direct := WithoutDetours(root, shorter);
      } else {
        ChainOfFiles(root, chain);
        direct := chain;
      }
    }

    // The theorems.

    /** No cleaned path is read twice, whatever the include graph looks like. */
    lemma ReadsEachPathOnce(root: string)
      ensures ReadOnce(Collect(root))
    {
      WalkReadsOnce(root, 0, NOTHING);
    }

    /** On every include graph the collected hosts are exactly the allowed
        aliases of the files read, and every file read is reachable. */
    lemma CollectsFromFilesRead(root: string)
      ensures forall path :: path in Collect(root).visited ==> Reachable(root, path)
      ensures forall host :: host in Collect(root).hosts <==>
                exists path :: path in Collect(root).visited && Mentions(path, host)
    {
      var found := Collect(root);
      ReachableIsClosed(root);
      WalkStaysWithin(root, 0, NOTHING, iset path | Reachable(root, path));
      WalkSettles(root, 0, NOTHING, {});
      HostsComeFromVisited(root, 0, NOTHING);
      forall host, path | path in found.visited && Mentions(path, host)
        ensures host in found.hosts
      {
        assert AllHandled(Events(files[path]), found);
        var i :| 0 <= i < |Events(files[path])| && Events(files[path])[i] == Alias(host);
        assert Handled(Events(files[path])[i], found);
      }
    }

    ghost predicate Sourced(found: Found) {
      forall host :: host in found.hosts ==> exists path :: path in found.visited && Mentions(path, host)
    }

    lemma {:induction false} HostsComeFromVisited(path: string, depth: nat, found: Found)
      requires Sourced(found)
      ensures Sourced(Walk(path, depth, found))
      decreases Budget(depth), 1, 0
    {
      var cleaned := clean(path);
      if depth < DEPTH_LIMIT && cleaned !in found.visited && cleaned in files {
        var reading := found.(visited := found.visited + {cleaned}, readLog := found.readLog + [cleaned]);
        assert Sourced(reading);
        EventsComeFromVisited(cleaned, Events(files[cleaned]), depth, reading);
      }
    }

    lemma {:induction false} EventsComeFromVisited(from: string, events: seq<Event>, depth: nat, found: Found)
      requires depth < DEPTH_LIMIT && Sourced(found)
      requires from in found.visited && from in files
      requires forall event :: event in events ==> event in Events(files[from])
      ensures Sourced(Process(events, depth, found))
      decreases Budget(depth), 0, |events|
    {
      if events != [] {
        assert events[0] in events;
        assert events[0].Alias? && Allowed(events[0].host) ==> Mentions(from, events[0].host);
        MeetComesFromVisited(from, events[0], depth, found);
        EventsComeFromVisited(from, events[1..], depth, Meet(events[0], depth, found));
      }
    }

    lemma {:induction false} MeetComesFromVisited(from: string, event: Event, depth: nat, found: Found)
      requires depth < DEPTH_LIMIT && Sourced(found) && from in found.visited
      requires event.Alias? && Allowed(event.host) ==> Mentions(from, event.host)
      ensures Sourced(Meet(event, depth, found)) && from in Meet(event, depth, found).visited
      decreases Budget(depth), 0, 0
    {
      if event.Include? {
        WalkGrows(event.path, depth + 1, found);
        HostsComeFromVisited(event.path, depth + 1, found);
      }
    }

    /** The walk reads every reachable file exactly when each readable path that
        the depth limit turned away was read on some other way. */
    lemma CompleteIffNothingLost(root: string)
      ensures ReachableFiles(root) <= Collect(root).visited <==> NothingLost(Collect(root))
    {
      var found := Collect(root);
      ReachableIsClosed(root);
      WalkStaysWithin(root, 0, NOTHING, iset path | Reachable(root, path));
      if NothingLost(found) {
        WalkSettles(root, 0, NOTHING, {});
        WalkGrows(root, 0, NOTHING);
        var reached := iset path | path in files ==> path in found.visited;
        forall from, to | from in reached && Leads(from, to)
          ensures to in reached
        {
          var path :| Include(path) in Events(files[from]) && clean(path) == to;
          assert AllHandled(Events(files[from]), found);
          var i :| 0 <= i < |Events(files[from])| && Events(files[from])[i] == Include(path);
          assert Handled(Events(files[from])[i], found);
        }
        forall path | path in ReachableFiles(root)
          ensures path in found.visited
        {
          var chain :| IsChain(root, chain) && chain[|chain| - 1] == path;
          ChainStaysInside(root, chain, reached);
        }
      }
    }

    /** Where no chain of distinct files is longer than sixteen the depth limit has
        no effect: the hosts are exactly the allowed aliases of all reachable files. */
    lemma CollectsAllWhenChainsAreShort(root: string)
      requires ChainsAreShort(root)
      ensures ReachableFiles(root) <= Collect(root).visited
      ensures forall host :: host in Collect(root).hosts <==>
                exists path :: Reachable(root, path) && Mentions(path, host)
    {
      var found := Collect(root);
      WalkLosesNothing(root, root, 0, NOTHING, []);
      CompleteIffNothingLost(root);
      CollectsFromFilesRead(root);
      forall host, path | Reachable(root, path) && Mentions(path, host)
        ensures host in found.hosts
      {
        assert path in ReachableFiles(root);
      }
    }

    lemma PartIsChain(root: string, chain: seq<string>, i: nat)
      requires IsChain(root, chain) && i < |chain|
      ensures Reachable(root, chain[i])
    {
      var part := chain[..i + 1];
      forall k | 0 < k < |part| ensures Linked(part, k) {
        assert Linked(chain, k);
      }
      assert IsChain(root, part) && part[|part| - 1] == chain[i];
    }

    lemma FileChainFits(root: string, chain: seq<string>)
      requires IsFileChain(root, chain)
      ensures |chain| <= |ReachableFiles(root)|
    {
      forall i | 0 <= i < |chain| ensures chain[i] in ReachableFiles(root) {
        PartIsChain(root, chain, i);
      }
      DistinctFit(chain, ReachableFiles(root));
    }

    /** In particular up to sixteen reachable files, whatever cycles they form. */
    lemma CollectsAllWithinLimit(root: string)
      requires |ReachableFiles(root)| <= 16
      ensures ReachableFiles(root) <= Collect(root).visited
      ensures forall host :: host in Collect(root).hosts <==>
                exists path :: Reachable(root, path) && Mentions(path, host)
    {
      forall chain | IsFileChain(root, chain) ensures |chain| <= DEPTH_LIMIT {
        FileChainFits(root, chain);
      }
      CollectsAllWhenChainsAreShort(root);
    }

    /** Whatever the walk reads, a chain of at most sixteen files leads to it. */
    lemma ReadsOnlyShallowFiles(root: string)
      ensures AllShallow(root, Collect(root))
    {
      RootIsNearby(root);
      LayersStepUp(root);
      LayersAreInside(root);
      WalkStaysLayered(Layers(root), Nearby(root, DEPTH_LIMIT), root, 0, NOTHING);
    }

    /** What chains of at most the given length lead to. */
    ghost function Nearby(root: string, length: nat): iset<string> { iset path | ReachableIn(root, path, length) }

    ghost function Layers(root: string): nat -> iset<string> { (depth: nat) => Nearby(root, depth + 1) }

    lemma NearbyGrows(root: string, a: nat, b: nat)
      requires a <= b
      ensures Nearby(root, a) <= Nearby(root, b)
    {
      forall path | path in Nearby(root, a) ensures path in Nearby(root, b) {
        var chain :| IsChain(root, chain) && chain[|chain| - 1] == path && |chain| <= a;
      }
    }

    lemma RootIsNearby(root: string)
      ensures clean(root) in Nearby(root, 1)
    {
      var start := [clean(root)];
      assert IsChain(root, start) && start[|start| - 1] == clean(root);
    }

    lemma LayersStepUp(root: string)
      ensures StepsUp(Layers(root))
    {
      forall depth: nat, from, to
        ensures StepUp(Layers(root), depth, from, to)
      {
        NearbyStep(root, depth, from, to);
      }
    }

    lemma NearbyLeadsOn(root: string, length: nat, from: string, to: string)
      requires from in Nearby(root, length) && Leads(from, to)
      ensures to in Nearby(root, length + 1)
    {
      ReachableInStep(root, from, to, length);
    }

    lemma LayerIsNearby(root: string, depth: nat)
      ensures Layers(root)(depth) == Nearby(root, depth + 1)
    {
    }

    lemma NearbyStep(root: string, depth: nat, from: string, to: string)
      ensures StepUp(Layers(root), depth, from, to)
    {
      LayerIsNearby(root, depth);
      LayerIsNearby(root, depth + 1);
      if from in Layers(root)(depth) && Leads(from, to) {
        NearbyLeadsOn(root, depth + 1, from, to);
      }
    }

    lemma LayersAreInside(root: string)
      ensures AreInside(Layers(root), Nearby(root, DEPTH_LIMIT))
    {
      forall depth: nat, path | depth < DEPTH_LIMIT && path in Layers(root)(depth)
        ensures path in Nearby(root, DEPTH_LIMIT)
      {
        NearbyGrows(root, depth + 1, DEPTH_LIMIT);
      }
    }

    /** All ways to a file without repetition are equally long, as when every file is
        included from one place. */
    ghost predicate OneDistance(root: string) {
      forall a, b :: IsFileChain(root, a) && IsFileChain(root, b) && a[|a| - 1] == b[|b| - 1] ==> |a| == |b|
    }

    /** For such files short chains are exactly what completeness takes. */
    lemma CompleteIffChainsAreShort(root: string)
      requires OneDistance(root)
      ensures ReachableFiles(root) <= Collect(root).visited <==> ChainsAreShort(root)
    {
      if ChainsAreShort(root) {
        CollectsAllWhenChainsAreShort(root);
      }
      if ReachableFiles(root) <= Collect(root).visited {
        forall chain | IsFileChain(root, chain) ensures |chain| <= DEPTH_LIMIT {
          var path := chain[|chain| - 1];
          assert path in ReachableFiles(root);
          ReadsOnlyShallowFiles(root);
          var short :| IsChain(root, short) && short[|short| - 1] == path && |short| <= DEPTH_LIMIT;
          var direct := WithoutDetours(root, short);
        }
      }
    }
  }

  lemma {:induction false} DistinctFit(items: seq<string>, all: set<string>)
    requires Distinct(items)
    requires forall i :: 0 <= i < |items| ==> items[i] in all
    ensures |items| <= |all|
    decreases |items|
  {
    if items != [] {
      var n := |items| - 1;
      DistinctFit(items[..n], all - {items[n]});
    }
  }

  /** The maps that a recursive call shares with its caller. */
  class HostCollector {
    const site: Site
    var hosts: set<string>
    var visited: set<string>
    ghost var readLog: seq<string>
    ghost var refused: set<string>

    ghost function State(): Found
      reads this
    {
      Found(hosts, visited, readLog, refused)
    }

    constructor (site: Site)
      ensures this.site == site && State() == NOTHING
    {
      this.site := site;
      hosts, visited := {}, {};
      readLog, refused := [], {};
    }

    method AddHost(host: string)
      modifies this
      ensures State() == old(State()).(hosts := if Allowed(host) then old(hosts) + {host} else old(hosts))
    {
      if host == "" || host[0] == '-' || exists i :: 0 <= i < |host| && Forbidden(host[i]) {
        return;
      }
      hosts := hosts + {host};
    }

    method ReadConfig(path: string, depth: nat)
      modifies this
      ensures State() == site.Walk(path, depth, old(State()))
      decreases site.Budget(depth), 1, 0
    {
      if depth >= DEPTH_LIMIT {
        refused := refused + {site.clean(path)};
        return;
      }
      var path := site.clean(path);
      if path in visited {
        return;
      }
      visited := visited + {path};
      readLog := readLog + [path];
      if path !in site.files {
        return;
      }
      var lines := site.files[path];
      ghost var goal := site.Process(site.Events(lines), depth, State());
      for i := 0 to |lines|
        invariant site.Process(site.Events(lines[i..]), depth, State()) == goal
      {
        assert lines[i..][0] == lines[i] && lines[i..][1..] == lines[i + 1..];
        site.ProcessConcat(site.LineEvents(lines[i]), site.Events(lines[i + 1..]), depth, State());
        var directive := SshConfig.Parse(lines[i]);
        if directive.key == "host" {
          AddHosts(directive.values, depth);
        } else if directive.key == "include" {
          Follow(directive.values, depth);
        }
      }
    }

    /** The values of one Host line. */
    method AddHosts(values: seq<string>, ghost depth: nat)
      requires depth < DEPTH_LIMIT
      modifies this
      ensures State() == site.Process(site.Aliases(values), depth, old(State()))
    {
      for i := 0 to |values|
        invariant site.Process(site.Aliases(values[i..]), depth, State())
               == site.Process(site.Aliases(values), depth, old(State()))
      {
        assert values[i..][0] == values[i] && values[i..][1..] == values[i + 1..];
        AddHost(values[i]);
      }
    }

    /** The patterns of one Include line. */
    method Follow(patterns: seq<string>, depth: nat)
      requires depth < DEPTH_LIMIT
      modifies this
      ensures State() == site.Process(site.Patterns(patterns), depth, old(State()))
      decreases site.Budget(depth), 0, 1
    {
      for i := 0 to |patterns|
        invariant site.Process(site.Patterns(patterns[i..]), depth, State())
               == site.Process(site.Patterns(patterns), depth, old(State()))
      {
        assert patterns[i..][0] == patterns[i] && patterns[i..][1..] == patterns[i + 1..];
        var paths := site.IncludePaths(patterns[i]);
        site.ProcessConcat(site.Includes(paths), site.Patterns(patterns[i + 1..]), depth, State());
        ReadPaths(paths, depth);
      }
    }

    /** The files that one pattern names. */
    method ReadPaths(paths: seq<string>, depth: nat)
      requires depth < DEPTH_LIMIT
      modifies this
      ensures State() == site.Process(site.Includes(paths), depth, old(State()))
      decreases site.Budget(depth), 0, 0
    {
      ghost var goal := site.Process(site.Includes(paths), depth, State());
      for k := 0 to |paths|
        invariant site.Process(site.Includes(paths[k..]), depth, State()) == goal
      {
        assert paths[k..][0] == paths[k] && paths[k..][1..] == paths[k + 1..];
        ReadConfig(paths[k], depth + 1);
      }
    }
  }
}
