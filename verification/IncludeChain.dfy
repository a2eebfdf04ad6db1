/** The depth limit is tight: a chain of more than sixteen files, each including
    the next, loses the alias in its last file. */
module IncludeChain {
  import SshConfig
  import opened IncludeWalk

  /** The k-th file of a chain; its name is k + 1 letters long. */
  function Name(k: nat): string { seq(k + 1, _ => 'a') }

  function Names(n: nat): (names: set<string>)
    ensures forall p :: p in names <==> 0 < |p| <= n && p == Name(|p| - 1)
  {
    if n == 0 then {} else Names(n - 1) + {Name(n - 1)}
  }

  lemma {:induction false} NamesCount(n: nat)
    ensures |Names(n)| == n
  {
    if n > 0 {
      NamesCount(n - 1);
      assert |Name(n - 1)| == n;
      assert Name(n - 1) !in Names(n - 1);
    }
  }

  const ALIAS := "lost"

  function ChainEvents(n: nat, k: nat): seq<Event> {
    if k + 1 < n then [Include(Name(k + 1))] else [Alias(ALIAS)]
  }

  ghost predicate IsChainSite(site: Site, n: nat) {
    && site.files.Keys == Names(n)
    && (forall p :: site.clean(p) == p)
    && forall k: nat :: k < n ==> IsLink(site, n, k)
  }

  ghost predicate IsLink(site: Site, n: nat, k: nat) {
    Name(k) in site.files && site.Events(site.files[Name(k)]) == ChainEvents(n, k)
  }

  function Marked(found: Found, path: string): Found {
    found.(visited := found.visited + {path}, readLog := found.readLog + [path])
  }

  lemma WalkOneInclude(site: Site, path: string, next: string, depth: nat, found: Found)
    requires depth < DEPTH_LIMIT && site.clean(path) == path && path in site.files && path !in found.visited
    requires site.Events(site.files[path]) == [Include(next)]
    ensures site.Walk(path, depth, found) == site.Walk(next, depth + 1, Marked(found, path))
  {
    var events := [Include(next)];
    assert events[1..] == [];
    var after := site.Meet(events[0], depth, Marked(found, path));
    assert site.Process(events[1..], depth, after) == after;
    assert site.Process(events, depth, Marked(found, path)) == after;
  }

  /** The walk goes down the chain one file for each level and stops. */
  lemma {:induction false} WalkStopsInChain(site: Site, n: nat, k: nat, found: Found)
    requires IsChainSite(site, n) && DEPTH_LIMIT < n && k <= DEPTH_LIMIT
    requires forall p :: p in found.visited ==> |p| <= k
    ensures site.Walk(Name(k), k, found).hosts == found.hosts
    decreases DEPTH_LIMIT - k
  {
    if k < DEPTH_LIMIT {
      assert IsLink(site, n, k) && |Name(k)| == k + 1;
      WalkOneInclude(site, Name(k), Name(k + 1), k, found);
      WalkStopsInChain(site, n, k + 1, Marked(found, Name(k)));
    }
  }

  lemma LinkInChain(site: Site, n: nat, k: nat)
    requires IsChainSite(site, n) && k + 1 < n
    ensures site.Leads(Name(k), Name(k + 1))
  {
    assert IsLink(site, n, k);
    assert ChainEvents(n, k)[0] == Include(Name(k + 1));
    assert site.clean(Name(k + 1)) == Name(k + 1);
  }

  lemma RootIsReachable(site: Site, root: string)
    requires site.clean(root) == root
    ensures site.Reachable(root, root)
  {
    var start := [root];
    assert site.IsChain(root, start) && start[|start| - 1] == root;
  }

  lemma {:induction false} LinksAreReachable(site: Site, n: nat, k: nat)
    requires site.Reachable(Name(0), Name(0)) && k < n
    requires forall i: nat :: i + 1 < n ==> site.Leads(Name(i), Name(i + 1))
    ensures site.Reachable(Name(0), Name(k))
    decreases k
  {
    if k > 0 {
      LinksAreReachable(site, n, k - 1);
      assert site.Leads(Name(k - 1), Name(k - 1 + 1));
      site.ReachableStep(Name(0), Name(k - 1), Name(k));
    }
  }

  lemma ChainIsReachable(site: Site, n: nat, k: nat)
    requires IsChainSite(site, n) && k < n
    ensures site.Reachable(Name(0), Name(k))
  {
    RootIsReachable(site, Name(0));
    forall i: nat | i + 1 < n ensures site.Leads(Name(i), Name(i + 1)) {
      LinkInChain(site, n, i);
    }
    LinksAreReachable(site, n, k);
  }

  lemma ChainReachesItsFiles(site: Site, n: nat)
    requires IsChainSite(site, n)
    ensures site.ReachableFiles(Name(0)) == Names(n)
  {
    forall p | p in Names(n) ensures p in site.ReachableFiles(Name(0)) {
      ChainIsReachable(site, n, |p| - 1);
    }
  }

  lemma AliasIsAllowed()
    ensures Allowed(ALIAS)
  {
    assert ALIAS == ['l', 'o', 's', 't'];
  }

  lemma ChainMentionsAlias(site: Site, n: nat)
    requires IsChainSite(site, n) && n > 0
    ensures site.Mentions(Name(n - 1), ALIAS)
  {
    assert IsLink(site, n, n - 1);
    assert ChainEvents(n, n - 1)[0] == Alias(ALIAS);
    AliasIsAllowed();
  }

  /** Every chain above the limit misses an allowed, reachable alias. */
  lemma ChainLosesAlias(site: Site, n: nat)
    requires IsChainSite(site, n) && DEPTH_LIMIT < n
    ensures |site.ReachableFiles(Name(0))| == n
    ensures site.Reachable(Name(0), Name(n - 1)) && site.Mentions(Name(n - 1), ALIAS)
    ensures ALIAS !in site.Collect(Name(0)).hosts
  {
    NamesCount(n);
    ChainReachesItsFiles(site, n);
    ChainIsReachable(site, n, n - 1);
    ChainMentionsAlias(site, n);
    WalkStopsInChain(site, n, 0, NOTHING);
  }

  // Such chains exist: the files can be written as ordinary configuration lines.

  /** A keyword and one quoted value. */
  function LineOf(keyword: string, value: string): string {
    SshConfig.Rendering([keyword, value], ["", " "])
  }

  lemma ParseLine(keyword: string, value: string)
    requires SshConfig.Quotable(keyword) && '=' !in keyword && SshConfig.Quotable(value) && value[0] != '='
    ensures SshConfig.Parse(LineOf(keyword, value)) == SshConfig.Directive(SshConfig.Lower(keyword), [value])
  {
    var words, gaps := [keyword, value], ["", " "];
    assert SshConfig.AllSpace(""[..0]);
    assert LineOf(keyword, value) + "" == LineOf(keyword, value);
    SshConfig.LexOfRendering(words, gaps, "");
    SshConfig.CutFirstEquals(keyword, "");
    assert words[1..] == [value];
  }

  function LineFor(n: nat, k: nat): string {
    if k + 1 < n then LineOf("include", Name(k + 1)) else LineOf("host", ALIAS)
  }

  /** A machine on which a path names exactly the file of that name. */
  function SiteOf(files: map<string, seq<string>>): Site {
    Site(files, "/home", p => p,
         (parts: seq<string>) => if parts == [] then "" else parts[|parts| - 1],
         p => [p])
  }

  function ChainSite(n: nat): Site {
    SiteOf(map p | p in Names(n) :: [LineFor(n, |p| - 1)])
  }

  lemma PlainGlob(files: map<string, seq<string>>, path: string)
    requires path != "" && path[0] == 'a'
    ensures SiteOf(files).IncludePaths(path) == [path]
  {
    var parts := [SiteOf(files).home, ".ssh", path];
    assert parts[|parts| - 1] == path;
  }

  lemma OnePattern(site: Site, path: string)
    requires site.IncludePaths(path) == [path]
    ensures site.Patterns([path]) == [Include(path)]
  {
    var one := [path];
    assert one[0] == path && one[1..] == [];
    assert site.Includes(one) == [Include(path)] + site.Includes([]);
    assert site.Patterns(one) == site.Includes(one) + site.Patterns([]);
  }

  lemma IncludeLine(files: map<string, seq<string>>, path: string)
    requires SshConfig.Quotable(path) && path[0] == 'a'
    ensures SiteOf(files).LineEvents(LineOf("include", path)) == [Include(path)]
  {
    ParseLine("include", path);
    assert SshConfig.Lower("include") == "include";
    PlainGlob(files, path);
    OnePattern(SiteOf(files), path);
  }

  lemma OneAlias(site: Site, host: string)
    ensures site.Aliases([host]) == [Alias(host)]
  {
    var one := [host];
    assert one[0] == host && one[1..] == [];
  }

  lemma HostLine(files: map<string, seq<string>>)
    ensures SiteOf(files).LineEvents(LineOf("host", ALIAS)) == [Alias(ALIAS)]
  {
    assert SshConfig.Quotable(ALIAS) && ALIAS[0] != '=';
    ParseLine("host", ALIAS);
    assert SshConfig.Lower("host") == "host";
    OneAlias(SiteOf(files), ALIAS);
  }

  lemma ChainLine(n: nat, k: nat)
    requires k < n
    ensures ChainSite(n).LineEvents(LineFor(n, k)) == ChainEvents(n, k)
  {
    if k + 1 < n {
      IncludeLine(ChainSite(n).files, Name(k + 1));
    } else {
      HostLine(ChainSite(n).files);
    }
  }

  lemma EventsOfOneLine(site: Site, line: string)
    ensures site.Events([line]) == site.LineEvents(line)
  {
    var lines := [line];
    assert lines[0] == line && lines[1..] == [];
    assert site.Events(lines) == site.LineEvents(line) + site.Events([]);
  }

  lemma ChainFile(n: nat, k: nat)
    requires k < n
    ensures Name(k) in ChainSite(n).files && ChainSite(n).files[Name(k)] == [LineFor(n, k)]
  {
    assert |Name(k)| == k + 1;
    assert Name(k) in Names(n);
  }

  lemma ChainSiteLink(n: nat, k: nat)
    requires k < n
    ensures IsLink(ChainSite(n), n, k)
  {
    ChainFile(n, k);
    ChainLine(n, k);
    EventsOfOneLine(ChainSite(n), LineFor(n, k));
  }

  lemma ChainSiteIsChain(n: nat)
    ensures IsChainSite(ChainSite(n), n)
  {
    forall k: nat | k < n
      ensures IsLink(ChainSite(n), n, k)
    {
      ChainSiteLink(n, k);
    }
  }

  /** For every count above the limit there is a configuration with exactly that
      many reachable files whose walk misses an allowed, reachable alias. */
  lemma LimitIsTight(n: nat)
    requires 16 < n
    ensures var site := ChainSite(n);
            && |site.ReachableFiles(Name(0))| == n
            && site.Reachable(Name(0), Name(n - 1)) && site.Mentions(Name(n - 1), ALIAS)
            && ALIAS !in site.Collect(Name(0)).hosts
  {
    ChainSiteIsChain(n);
    ChainLosesAlias(ChainSite(n), n);
  }
}
