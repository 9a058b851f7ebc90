/**
  The project manager: a manifest of project descriptors, loaded once, and
  the resolution of one project into sections whose bodies have been fetched.

  Network access is not modelled. The manifest is given as a map, and the
  outcome of each section's own fetch is an input: a function of the
  section's position in the loop and of the locator it fetches, so two
  sections reading the same file may still fare differently.
 */
module Projects {
  import opened Optional

  /** One entry of a descriptor's `sections` object, in the object's key order. */
  datatype SectionRef = SectionRef(id: string, title: string, contentFile: string)

  /** A screenshot entry is either a bare locator or a `{src, caption}` record. */
  datatype Screenshot =
    | Bare(src: string)
    | Captioned(src: string, caption: Option<string>)

  /** `screenshots` is None when the field is missing or is not an array. */
  datatype Descriptor = Descriptor(sections: seq<SectionRef>, screenshots: Option<seq<Screenshot>>)

  /** The `projects` object of the manifest, keyed by project identifier. */
  type Manifest = map<string, Descriptor>

  /**
    The outcome of fetching a content file and reading its text. A fetch
    only fails on a network error: an HTTP error status still yields a body.
   */
  datatype Fetch = Fetched(text: string) | FetchFailed

  /** The outcome of the fetch made for the section at a position, from its locator. */
  type Fetcher = (nat, string) -> Fetch

  datatype ResolvedSection = ResolvedSection(id: string, title: string, content: string)

  datatype ResolvedProject = ResolvedProject(sections: seq<ResolvedSection>, screenshots: Option<seq<Screenshot>>)

  /** The project shown for an identifier the manifest does not know. */
  const DefaultProject: ResolvedProject :=
    ResolvedProject([ResolvedSection("default", "Description", "Detailed description coming soon...")], Some([]))

  /** The manifest held before any load completes. */
  const EmptyManifest: Manifest := map[]

  /** `loadProjects`: the parsed manifest on success; on failure the current one is kept. */
  function LoadProjects(current: Manifest, loaded: Option<Manifest>): (m: Manifest)
    ensures loaded.Some? ==> m == loaded.value
    ensures loaded.None? ==> m == current
  {
    match loaded
    case Some(m) => m
    case None => current
  }

  /** The markup that stands in for a section whose content could not be fetched. */
  function ErrorPlaceholder(title: string): string
  {
    "<p>Error loading content for " + title + "</p>"
  }

  /** The section's content: the fetched text, or the placeholder naming its title. */
  function ContentOf(ref: SectionRef, outcome: Fetch): string
  {
    match outcome
    case Fetched(text) => text
    case FetchFailed => ErrorPlaceholder(ref.title)
  }

  /**
    `resolved` has one section per reference, in the same order, each keeping
    its reference's id and title and carrying the content its own fetch produced.
   */
  ghost predicate ResolvesTo(refs: seq<SectionRef>, fetch: Fetcher, resolved: seq<ResolvedSection>)
  {
    && |resolved| == |refs|
    && forall i :: 0 <= i < |refs| ==>
         && resolved[i].id == refs[i].id
         && resolved[i].title == refs[i].title
         && resolved[i].content == ContentOf(refs[i], fetch(i, refs[i].contentFile))
  }

  /** The loop of `getProjectDetails`: fetch each section in turn and push its resolution. */
  function ResolveSections(refs: seq<SectionRef>, fetch: Fetcher): (resolved: seq<ResolvedSection>)
    ensures ResolvesTo(refs, fetch, resolved)
    decreases |refs|
  {
    if |refs| == 0 then []
    else
      var last := refs[|refs| - 1];
      ResolveSections(refs[..|refs| - 1], fetch)
        + [ResolvedSection(last.id, last.title, ContentOf(last, fetch(|refs| - 1, last.contentFile)))]
  }

  /**
    `getProjectDetails`: an unknown identifier yields the default project;
    a known one yields its descriptor with every section resolved and every
    other field copied.
   */
  function GetProjectDetails(manifest: Manifest, id: string, fetch: Fetcher): (p: ResolvedProject)
    ensures id !in manifest ==> p == DefaultProject
    ensures id in manifest ==> ResolvesTo(manifest[id].sections, fetch, p.sections)
    ensures id in manifest ==> p.screenshots == manifest[id].screenshots
  {
    if id !in manifest then DefaultProject
    else
      var d := manifest[id];
      ResolvedProject(ResolveSections(d.sections, fetch), d.screenshots)
  }

  /** A resolved project has a section exactly when its descriptor has one, or it is the default. */
  lemma ResolvedProjectNonEmpty(manifest: Manifest, id: string, fetch: Fetcher)
    ensures |GetProjectDetails(manifest, id, fetch).sections| > 0
        <==> (id !in manifest || |manifest[id].sections| > 0)
  {
  }

  /**
    A failed fetch affects only its own section: when the fetch for
    section `k` fails, section `k` shows the placeholder naming its title
    and every other section is exactly as it was.
   */
  lemma SectionFailureIsolated(refs: seq<SectionRef>, fetch: Fetcher, k: nat)
    requires k < |refs|
    ensures var failing := (n: nat, f: string) => if n == k then FetchFailed else fetch(n, f);
            && ResolveSections(refs, failing)[k].content == ErrorPlaceholder(refs[k].title)
            && forall i :: 0 <= i < |refs| && i != k ==>
                 ResolveSections(refs, failing)[i] == ResolveSections(refs, fetch)[i]
  {
    var failing := (n: nat, f: string) => if n == k then FetchFailed else fetch(n, f);
    forall i | 0 <= i < |refs| && i != k
      ensures ResolveSections(refs, failing)[i] == ResolveSections(refs, fetch)[i]
    {
      assert failing(i, refs[i].contentFile) == fetch(i, refs[i].contentFile);
    }
  }

  /**
    Two sections reading the same content file are fetched separately: one
    can fail while the other succeeds.
   */
  lemma SameFileFetchedPerSection(a: SectionRef, b: SectionRef, text: string)
    requires a.contentFile == b.contentFile
    ensures var fetch := (n: nat, f: string) => if n == 0 then FetchFailed else Fetched(text);
            && ResolveSections([a, b], fetch)[0].content == ErrorPlaceholder(a.title)
            && ResolveSections([a, b], fetch)[1].content == text
  {
  }

  /** When the manifest never loaded, every identifier resolves to the default project. */
  lemma FailedLoadYieldsDefault(id: string, fetch: Fetcher)
    ensures GetProjectDetails(LoadProjects(EmptyManifest, None), id, fetch) == DefaultProject
  {
  }
}
