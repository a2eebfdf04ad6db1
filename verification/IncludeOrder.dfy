/** Above the depth limit the order of the lines decides what a walk finds: the same
    include graph is read completely in one order and not in another. */
module IncludeOrder {
  import SshConfig
  import opened IncludeWalk
  import opened IncludeChain

  /** The position of the last file; a chain through all files ends beyond the limit. */
  const LAST: nat := DEPTH_LIMIT

  /** A chain of files with an alias in the last one, and a shortcut from the first to
      the last but one, which is included after or before the chain. */
  function DetourEvents(k: nat, chainFirst: bool): seq<Event> {
    if k == 0 then
      if chainFirst then [Include(Name(1)), Include(Name(LAST - 1))] else [Include(Name(LAST - 1)), Include(Name(1))]
    else if k < LAST then [Include(Name(k + 1))]
    else [Alias(ALIAS)]
  }

  ghost predicate IsDetour(site: Site, chainFirst: bool) {
    && (forall p :: site.clean(p) == p)
    && forall k: nat :: k <= LAST ==> HasEvents(site, k, chainFirst)
  }

  ghost predicate HasEvents(site: Site, k: nat, chainFirst: bool) {
    Name(k) in site.files && site.Events(site.files[Name(k)]) == DetourEvents(k, chainFirst)
  }

  lemma WalkLink(site: Site, chainFirst: bool, k: nat, depth: nat, found: Found)
    requires IsDetour(site, chainFirst) && 1 <= k < LAST && depth < DEPTH_LIMIT
    requires forall p :: p in found.visited ==> |p| <= k
    ensures site.Walk(Name(k), depth, found) == site.Walk(Name(k + 1), depth + 1, Marked(found, Name(k)))
  {
    assert HasEvents(site, k, chainFirst) && |Name(k)| == k + 1;
    WalkOneInclude(site, Name(k), Name(k + 1), depth, found);
  }

  /** The files from the k-th to the last but one, marked as read. */
  function MarkedFrom(found: Found, k: nat): Found
    decreases LAST - k
  {
    if k >= LAST then found else MarkedFrom(Marked(found, Name(k)), k + 1)
  }

  lemma {:induction false} MarkedFromKeeps(found: Found, k: nat)
    ensures MarkedFrom(found, k).hosts == found.hosts && found.visited <= MarkedFrom(found, k).visited
    ensures k < LAST ==> Name(LAST - 1) in MarkedFrom(found, k).visited
    decreases LAST - k
  {
    if k < LAST {
      MarkedFromKeeps(Marked(found, Name(k)), k + 1);
    }
  }

  lemma {:induction false} WalkDownChain(site: Site, chainFirst: bool, k: nat, found: Found)
    requires IsDetour(site, chainFirst) && 1 <= k <= LAST
    requires forall p :: p in found.visited ==> |p| <= k
    ensures site.Walk(Name(k), k, found) == site.Walk(Name(LAST), LAST, MarkedFrom(found, k))
    decreases LAST - k
  {
    if k < LAST {
      var reading := Marked(found, Name(k));
      WalkLink(site, chainFirst, k, k, found);
      assert forall p :: p in reading.visited ==> |p| <= k + 1;
      WalkDownChain(site, chainFirst, k + 1, reading);
    }
  }

  /** The chain ends at the limit, having read the file that the shortcut leads to. */
  lemma ChainEndsAtLimit(site: Site, chainFirst: bool, found: Found)
    requires IsDetour(site, chainFirst) && forall p :: p in found.visited ==> |p| <= 1
    ensures site.Walk(Name(1), 1, found).hosts == found.hosts
    ensures Name(LAST - 1) in site.Walk(Name(1), 1, found).visited
  {
    WalkDownChain(site, chainFirst, 1, found);
    MarkedFromKeeps(found, 1);
    TurnedAway(site, Name(LAST), MarkedFrom(found, 1));
  }

  lemma TurnedAway(site: Site, path: string, found: Found)
    ensures site.Walk(path, LAST, found).hosts == found.hosts
    ensures site.Walk(path, LAST, found).visited == found.visited
  {
  }

  lemma ProcessTwoIncludes(site: Site, first: string, second: string, depth: nat, found: Found)
    requires depth < DEPTH_LIMIT
    ensures site.Process([Include(first), Include(second)], depth, found)
            == site.Walk(second, depth + 1, site.Walk(first, depth + 1, found))
  {
    var events := [Include(first), Include(second)];
    var middle := site.Walk(first, depth + 1, found);
    assert site.Meet(events[0], depth, found) == middle;
    assert events[1..] == [Include(second)];
    ProcessOneEvent(site, Include(second), depth, middle);
  }

  lemma ProcessOneEvent(site: Site, event: Event, depth: nat, found: Found)
    requires depth < DEPTH_LIMIT
    ensures site.Process([event], depth, found) == site.Meet(event, depth, found)
  {
    var events := [event];
    assert events[1..] == [];
    assert site.Process(events[1..], depth, site.Meet(event, depth, found)) == site.Meet(event, depth, found);
  }

  lemma WalkFile(site: Site, path: string, depth: nat, found: Found)
    requires depth < DEPTH_LIMIT && site.clean(path) == path && path in site.files && path !in found.visited
    ensures site.Walk(path, depth, found) == site.Process(site.Events(site.files[path]), depth, Marked(found, path))
  {
  }

  lemma RootEvents(site: Site, chainFirst: bool)
    requires IsDetour(site, chainFirst)
    ensures site.clean(Name(0)) == Name(0) && Name(0) in site.files
    ensures site.Events(site.files[Name(0)]) == DetourEvents(0, chainFirst)
  {
    assert HasEvents(site, 0, chainFirst);
  }

  lemma WalkRoot(site: Site, root: string, first: string, second: string)
    requires site.clean(root) == root && root in site.files
    requires site.Events(site.files[root]) == [Include(first), Include(second)]
    ensures site.Collect(root) == site.Walk(second, 1, site.Walk(first, 1, Marked(NOTHING, root)))
  {
    WalkTwoIncludes(site, root, first, second, 0, NOTHING);
  }

  lemma WalkTwoIncludes(site: Site, path: string, first: string, second: string, depth: nat, found: Found)
    requires depth < DEPTH_LIMIT && site.clean(path) == path && path in site.files && path !in found.visited
    requires site.Events(site.files[path]) == [Include(first), Include(second)]
    ensures site.Walk(path, depth, found)
            == site.Walk(second, depth + 1, site.Walk(first, depth + 1, Marked(found, path)))
  {
    WalkFile(site, path, depth, found);
    ProcessTwoIncludes(site, first, second, depth, Marked(found, path));
  }

  lemma ChainFirstLosesAlias(site: Site)
    requires IsDetour(site, true)
    ensures ALIAS !in site.Collect(Name(0)).hosts
  {
    var reading := Marked(NOTHING, Name(0));
    RootEvents(site, true);
    WalkRoot(site, Name(0), Name(1), Name(LAST - 1));
    ChainEndsAtLimit(site, true, reading);
    var middle := site.Walk(Name(1), 1, reading);
    assert site.Walk(Name(LAST - 1), 1, middle) == middle;
  }

  lemma ReadLast(site: Site, chainFirst: bool, depth: nat, found: Found)
    requires IsDetour(site, chainFirst) && Name(LAST) !in found.visited && depth < DEPTH_LIMIT
    ensures ALIAS in site.Walk(Name(LAST), depth, found).hosts
  {
    assert HasEvents(site, LAST, chainFirst);
    AliasIsAllowed();
    WalkFile(site, Name(LAST), depth, found);
    ProcessOneEvent(site, Alias(ALIAS), depth, Marked(found, Name(LAST)));
  }

  lemma ReadShortcut(site: Site, chainFirst: bool, k: nat, depth: nat, found: Found)
    requires IsDetour(site, chainFirst) && 1 <= k && k + 1 == LAST && depth + 1 < DEPTH_LIMIT
    requires forall p :: p in found.visited ==> |p| <= k
    ensures ALIAS in site.Walk(Name(k), depth, found).hosts
  {
    WalkLink(site, chainFirst, k, depth, found);
    assert |Name(k)| == k + 1 && |Name(LAST)| == LAST + 1;
    ReadLast(site, chainFirst, depth + 1, Marked(found, Name(k)));
  }

  lemma ShortcutFirstFindsAlias(site: Site)
    requires IsDetour(site, false)
    ensures ALIAS in site.Collect(Name(0)).hosts
  {
    var reading := Marked(NOTHING, Name(0));
    RootEvents(site, false);
    WalkRoot(site, Name(0), Name(LAST - 1), Name(1));
    ReadShortcut(site, false, LAST - 1, 1, reading);
    site.WalkGrows(Name(1), 1, site.Walk(Name(LAST - 1), 1, reading));
  }

  // Such files exist, and only the order of two lines differs.

  function DetourLines(k: nat, chainFirst: bool): seq<string> {
    if k == 0 then
      var chain, shortcut := LineOf("include", Name(1)), LineOf("include", Name(LAST - 1));
      if chainFirst then [chain, shortcut] else [shortcut, chain]
    else if k < LAST then [LineOf("include", Name(k + 1))]
    else [LineOf("host", ALIAS)]
  }

  function DetourSite(chainFirst: bool): Site {
    SiteOf(map p | p in Names(LAST + 1) :: DetourLines(|p| - 1, chainFirst))
  }

  lemma TwoIncludeLines(files: map<string, seq<string>>, a: string, b: string)
    requires SshConfig.Quotable(a) && SshConfig.Quotable(b) && a[0] == 'a' && b[0] == 'a'
    ensures SiteOf(files).Events([LineOf("include", a), LineOf("include", b)]) == [Include(a), Include(b)]
  {
    IncludeLine(files, a);
    IncludeLine(files, b);
    EventsOfTwoLines(SiteOf(files), LineOf("include", a), LineOf("include", b));
  }

  lemma EventsOfTwoLines(site: Site, a: string, b: string)
    ensures site.Events([a, b]) == site.LineEvents(a) + site.LineEvents(b)
  {
    EventsOfOneLine(site, b);
    assert [a, b][1..] == [b];
  }

  lemma OneIncludeLine(files: map<string, seq<string>>, path: string)
    requires SshConfig.Quotable(path) && path[0] == 'a'
    ensures SiteOf(files).Events([LineOf("include", path)]) == [Include(path)]
  {
    IncludeLine(files, path);
    EventsOfOneLine(SiteOf(files), LineOf("include", path));
  }

  lemma OneHostLine(files: map<string, seq<string>>)
    ensures SiteOf(files).Events([LineOf("host", ALIAS)]) == [Alias(ALIAS)]
  {
    HostLine(files);
    EventsOfOneLine(SiteOf(files), LineOf("host", ALIAS));
  }

  lemma DetourLine(k: nat, chainFirst: bool)
    requires k <= LAST
    ensures DetourSite(chainFirst).Events(DetourLines(k, chainFirst)) == DetourEvents(k, chainFirst)
  {
    var files := DetourSite(chainFirst).files;
    if k == 0 && chainFirst {
      TwoIncludeLines(files, Name(1), Name(LAST - 1));
    } else if k == 0 {
      TwoIncludeLines(files, Name(LAST - 1), Name(1));
    } else if k < LAST {
      OneIncludeLine(files, Name(k + 1));
    } else {
      OneHostLine(files);
    }
  }

  lemma DetourFile(k: nat, chainFirst: bool)
    requires k <= LAST
    ensures Name(k) in DetourSite(chainFirst).files
    ensures DetourSite(chainFirst).files[Name(k)] == DetourLines(k, chainFirst)
  {
    assert |Name(k)| == k + 1;
    assert Name(k) in Names(LAST + 1);
  }

  lemma DetourFileHasEvents(k: nat, chainFirst: bool)
    requires k <= LAST
    ensures HasEvents(DetourSite(chainFirst), k, chainFirst)
  {
    DetourFile(k, chainFirst);
    DetourLine(k, chainFirst);
  }

  lemma DetourSiteIsDetour(chainFirst: bool)
    ensures IsDetour(DetourSite(chainFirst), chainFirst)
  {
    forall k: nat | k <= LAST ensures HasEvents(DetourSite(chainFirst), k, chainFirst) {
      DetourFileHasEvents(k, chainFirst);
    }
  }

  lemma SameEvents(a: Site, b: Site, path: string)
    requires IsDetour(a, true) && IsDetour(b, false) && a.files.Keys == b.files.Keys
    requires path in a.files && 0 < |path| <= LAST + 1 && path == Name(|path| - 1)
    ensures forall event :: event in a.Events(a.files[path]) <==> event in b.Events(b.files[path])
  {
    var k := |path| - 1;
    assert HasEvents(a, k, true) && HasEvents(b, k, false);
  }

  /** Two configurations with the same files, of which each includes the same files
      and names the same aliases; one walk loses a reachable alias that the other one
      finds. So no condition on the include graph alone tells when a walk is complete. */
  lemma OrderDecides()
    ensures var a, b := DetourSite(true), DetourSite(false);
            && a.files.Keys == b.files.Keys
            && (forall from, to :: a.Leads(from, to) <==> b.Leads(from, to))
            && (forall from, host :: a.Mentions(from, host) <==> b.Mentions(from, host))
            && ALIAS !in a.Collect(Name(0)).hosts && ALIAS in b.Collect(Name(0)).hosts
  {
    var a, b := DetourSite(true), DetourSite(false);
    DetourSiteIsDetour(true);
    DetourSiteIsDetour(false);
    forall from, to ensures a.Leads(from, to) <==> b.Leads(from, to) {
      if from in a.files {
        SameEvents(a, b, from);
        assert a.Leads(from, to) <==> Include(to) in a.Events(a.files[from]);
        assert b.Leads(from, to) <==> Include(to) in b.Events(b.files[from]);
      }
    }
    forall from, host ensures a.Mentions(from, host) <==> b.Mentions(from, host) {
      if from in a.files {
        SameEvents(a, b, from);
      }
    }
    ChainFirstLosesAlias(a);
    ShortcutFirstFindsAlias(b);
  }
}
