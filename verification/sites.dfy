/**
 * Site resolution: which supported site, if any, the page's hostname belongs to.
 * The registry is an ordered list of (domain, configuration) entries, in the
 * insertion order in which `Object.entries` enumerates the source's table.
 */
module Sites {
  import opened Wrappers
  import opened Strings
  import opened Seqs

  /** How the takeover container is found on one site. */
  datatype SiteConfig = SiteConfig(
    containerSelector: Option<string>,  // CSS selector of the container, or none
    waitForContainer: bool              // wait for the selector (true) or for two iframes (false)
  )

  datatype Entry = Entry(domain: string, config: SiteConfig)

  /** The one site the extension ships with. */
  const CathodeConfig := SiteConfig(Some(".wrapper"), true)
  const Registry: seq<Entry> := [Entry("cathodetv.com", CathodeConfig)]

  /** Does `e`'s domain occur in `hostname`? */
  predicate Matches(hostname: string, e: Entry)
  {
    Contains(hostname, e.domain)
  }

  /** Configuration of the first registry entry whose domain is a substring of `hostname`; `None` for an unsupported site. */
  function Resolve(hostname: string, registry: seq<Entry>): (r: Option<SiteConfig>)
    ensures r.None? <==> forall i :: 0 <= i < |registry| ==> !Contains(hostname, registry[i].domain)
    ensures r.Some? ==> exists i ::
      && 0 <= i < |registry|
      && Contains(hostname, registry[i].domain)
      && r.value == registry[i].config
      && (forall j :: 0 <= j < i ==> !Contains(hostname, registry[j].domain))
  {
    match FirstIndex(registry, (e: Entry) => Matches(hostname, e))
    case None => None
    case Some(i) => Some(registry[i].config)
  }

  /** An earlier matching entry always wins over a later one. */
  lemma {:induction false} FirstMatchWins(hostname: string, registry: seq<Entry>, i: nat)
    requires i < |registry| && Contains(hostname, registry[i].domain)
    requires forall j :: 0 <= j < i ==> !Contains(hostname, registry[j].domain)
    ensures Resolve(hostname, registry) == Some(registry[i].config)
  {
    var f := FirstIndex(registry, (e: Entry) => Matches(hostname, e));
    assert Matches(hostname, registry[i]);
    assert f.Some? && f.value == i;
  }

  /** Every hostname that has "cathodetv.com" inside it is supported, with the `.wrapper` selector. */
  lemma {:induction false} CathodeHostsResolve(prefix: string, suffix: string)
    ensures Resolve(prefix + "cathodetv.com" + suffix, Registry) == Some(CathodeConfig)
  {
    SuperstringContains(prefix, "cathodetv.com", suffix);
    FirstMatchWins(prefix + "cathodetv.com" + suffix, Registry, 0);
  }

  /** A hostname without "cathodetv.com" in it is unsupported. */
  lemma {:induction false} OtherHostsUnsupported(hostname: string)
    requires !Contains(hostname, "cathodetv.com")
    ensures Resolve(hostname, Registry) == None
  {
  }
}
