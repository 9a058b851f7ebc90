/**
  The project modal's controller and the page state it shares with the
  lightbox: which overlays are shown, the one page-wide scroll lock, and the
  scroll offsets of the modal's content and body containers.
 */
module Modal {
  import opened Optional
  import opened Projects
  import opened Gallery
  import opened Tabs
  import Lightbox

  /** What `openProjectModal` reads from the clicked project card. */
  datatype Card = Card(projectId: Option<string>, title: string, banner: string, engine: string)

  /** The modal's content as last populated, and whether it is shown. */
  datatype ModalView = ModalView(
    shown: bool,
    title: string,
    banner: string,
    engineIcon: string,
    tabs: TabBar,
    gallery: Rendering)

  /**
    `scrollLocked` stands for `document.body.style.overflow == 'hidden'`:
    one flag, written by both the modal and the lightbox.
   */
  datatype Page = Page(
    modal: ModalView,
    viewer: Lightbox.Viewer,
    scrollLocked: bool,
    contentScroll: nat,
    bodyScroll: nat)

  datatype Key = Escape | ArrowLeft | ArrowRight | OtherKey

  const InitialPage: Page :=
    Page(ModalView(false, "", "", "", TabBar([], []), Rendering([], [])), Lightbox.Initial, false, 0, 0)

  const IconPrefix := "assets/icons/white"
  const IconSuffix := ".svg"
  const FriendshipIcon := "assets/icons/friendshiplogo.svg"

  predicate IsUpper(c: char)
  {
    'A' <= c <= 'Z'
  }

  /** `toLowerCase` on one character, for the ASCII letters. */
  function LowerChar(c: char): (r: char)
    ensures !IsUpper(r)
    ensures IsUpper(c) ==> r as int == c as int + 32
    ensures !IsUpper(c) ==> r == c
  {
    if IsUpper(c) then (c as int + 32) as char else c
  }

  function Lower(s: string): (r: string)
    ensures |r| == |s|
    ensures forall i :: 0 <= i < |s| ==> r[i] == LowerChar(s[i])
  {
    seq(|s|, i requires 0 <= i < |s| => LowerChar(s[i]))
  }

  /**
    The badge icon: one engine has an icon of its own; any other engine's
    icon spells the engine's name, letter by letter lower-cased, between the
    white-icon prefix and the `.svg` suffix.
   */
  function EngineIcon(engine: string): (path: string)
    ensures engine == "FriendshipEngine" ==> path == FriendshipIcon
    ensures engine != "FriendshipEngine" ==>
              && |path| == |IconPrefix| + |engine| + |IconSuffix|
              && path[..|IconPrefix|] == IconPrefix
              && path[|IconPrefix| + |engine|..] == IconSuffix
              && forall i :: 0 <= i < |engine| ==> path[|IconPrefix| + i] == LowerChar(engine[i])
  {
    if engine == "FriendshipEngine" then FriendshipIcon else IconPrefix + Lower(engine) + IconSuffix
  }

  /**
    Apart from the special case, two engines share an icon exactly when they
    agree once lower-cased.
   */
  lemma EngineIconIgnoresCaseOnly(e1: string, e2: string)
    requires e1 != "FriendshipEngine" && e2 != "FriendshipEngine"
    ensures EngineIcon(e1) == EngineIcon(e2) <==> Lower(e1) == Lower(e2)
  {
    var p1, p2 := EngineIcon(e1), EngineIcon(e2);
    if p1 == p2 {
      assert |Lower(e1)| == |Lower(e2)|;
      forall i | 0 <= i < |Lower(e1)|
        ensures Lower(e1)[i] == Lower(e2)[i]
      {
        assert p1[|IconPrefix| + i] == Lower(e1)[i];
        assert p2[|IconPrefix| + i] == Lower(e2)[i];
      }
    }
  }

  /** No other engine, however it is spelled, is given the special icon. */
  lemma SpecialIconIsDistinct(engine: string)
    requires engine != "FriendshipEngine"
    ensures EngineIcon(engine) != FriendshipIcon
  {
    var path := EngineIcon(engine);
    assert path[..|IconPrefix|] == IconPrefix;
    assert path[13] == IconPrefix[13] == 'w';
    assert FriendshipIcon[13] == 'f';
  }

  /** `getAttribute('data-project-id')` is missing or empty, both falsy. */
  predicate HasProjectId(card: Card)
  {
    card.projectId.Some? && card.projectId.value != ""
  }

  /**
    `openProjectModal`: the scroll offsets are reset first; a card without a
    project id then aborts. Otherwise the project is resolved, the header,
    tabs and screenshot grid are populated, the first tab is made active,
    and the modal is shown with page scrolling locked.
   */
  function OpenProjectModal(page: Page, card: Card, manifest: Manifest, fetch: Fetcher): (r: Page)
    ensures r.contentScroll == 0 && r.bodyScroll == 0
    ensures !HasProjectId(card) ==> r == page.(contentScroll := 0, bodyScroll := 0)
    ensures HasProjectId(card) ==>
              var project := GetProjectDetails(manifest, card.projectId.value, fetch);
              && r.modal.shown && r.scrollLocked && r.viewer == page.viewer
              && r.modal.title == card.title && r.modal.banner == card.banner
              && r.modal.engineIcon == EngineIcon(card.engine)
              && r.modal.tabs == Build(project.sections)
              && r.modal.gallery == RenderScreenshots(project, card.banner, card.title)
  {
    var reset := page.(contentScroll := 0, bodyScroll := 0);
    if !HasProjectId(card) then reset
    else
      var project := GetProjectDetails(manifest, card.projectId.value, fetch);
      ResetAfterBuild(project.sections);
      var tabs := ResetToFirst(Build(project.sections));
      var gallery := RenderScreenshots(project, card.banner, card.title);
      reset.(modal := ModalView(true, card.title, card.banner, EngineIcon(card.engine), tabs, gallery),
             scrollLocked := true)
  }

  /** `closeProjectModal`: hide the modal, unlock page scrolling, reset the offsets. */
  function CloseProjectModal(page: Page): (r: Page)
    ensures !r.modal.shown && !r.scrollLocked && r.contentScroll == 0 && r.bodyScroll == 0
    ensures r.viewer == page.viewer
    ensures r.modal == page.modal.(shown := false)
  {
    page.(modal := page.modal.(shown := false), scrollLocked := false, contentScroll := 0, bodyScroll := 0)
  }

  /**
    A click on grid item `g` calls `openLightbox` with the rendered image
    list; the scroll lock is taken only when the image renders.
   */
  function ClickGridItem(page: Page, g: int): (r: Page)
    requires 0 <= g < |page.modal.gallery.grid|
    ensures r.modal == page.modal
    ensures r.contentScroll == page.contentScroll && r.bodyScroll == page.bodyScroll
    ensures r.viewer.images == page.modal.gallery.images
    ensures r.viewer.index == page.modal.gallery.grid[g].lightboxIndex
    ensures Lightbox.InRange(r.viewer) ==> r.viewer.shown && r.scrollLocked
    ensures !Lightbox.InRange(r.viewer) ==> r.viewer.shown == page.viewer.shown && r.scrollLocked == page.scrollLocked
  {
    var gallery := page.modal.gallery;
    var start := gallery.grid[g].lightboxIndex;
    var viewer := Lightbox.Open(page.viewer, gallery.images, start);
    page.(viewer := viewer,
          scrollLocked := if Lightbox.Renders(gallery.images, start) then true else page.scrollLocked)
  }

  /** `closeLightboxModal`: hide the overlay and clear the shared scroll lock. */
  function CloseLightbox(page: Page): (r: Page)
    ensures !r.viewer.shown && !r.scrollLocked && r.modal == page.modal
    ensures r.viewer.images == page.viewer.images && r.viewer.index == page.viewer.index
    ensures r.contentScroll == page.contentScroll && r.bodyScroll == page.bodyScroll
  {
    page.(viewer := Lightbox.Close(page.viewer), scrollLocked := false)
  }

  /**
    A key press. The modal's listener runs first (it is registered first)
    and closes the modal on Escape; the lightbox's listener then closes the
    lightbox on Escape and, while it is shown, steps with the arrow keys.
   */
  function KeyDown(page: Page, key: Key): (r: Page)
    ensures key == Escape && (page.modal.shown || page.viewer.shown) ==>
              !r.modal.shown && !r.viewer.shown && !r.scrollLocked
    ensures key == Escape && !page.modal.shown && !page.viewer.shown ==> r == page
    ensures key != Escape && page.viewer.shown ==>
              r.modal == page.modal && r.scrollLocked == page.scrollLocked
              && r.contentScroll == page.contentScroll && r.bodyScroll == page.bodyScroll
              && r.viewer == (if key == ArrowLeft then Lightbox.Prev(page.viewer)
                              else if key == ArrowRight then Lightbox.Next(page.viewer)
                              else page.viewer)
    ensures key != Escape && !page.viewer.shown ==> r == page
  {
    var afterModal := if key == Escape && page.modal.shown then CloseProjectModal(page) else page;
    var afterClose := if key == Escape && afterModal.viewer.shown then CloseLightbox(afterModal) else afterModal;
    if !afterClose.viewer.shown then afterClose
    else if key == ArrowLeft then afterClose.(viewer := Lightbox.Prev(afterClose.viewer))
    else if key == ArrowRight then afterClose.(viewer := Lightbox.Next(afterClose.viewer))
    else afterClose
  }

  /**
    Escape does what the close controls do: it closes the modal when it is
    shown, and then the lightbox when that is shown.
   */
  lemma EscapeActsAsCloseControls(page: Page)
    ensures page.modal.shown && page.viewer.shown ==>
              KeyDown(page, Escape) == CloseLightbox(CloseProjectModal(page))
    ensures page.modal.shown && !page.viewer.shown ==>
              KeyDown(page, Escape) == CloseProjectModal(page)
    ensures !page.modal.shown && page.viewer.shown ==>
              KeyDown(page, Escape) == CloseLightbox(page)
  {
  }

  /**
    After a successful open the first tab is the only active one, as long
    as the project has a section at all.
   */
  lemma OpenActivatesFirstTab(page: Page, card: Card, manifest: Manifest, fetch: Fetcher)
    requires HasProjectId(card)
    requires card.projectId.value !in manifest || |manifest[card.projectId.value].sections| > 0
    ensures OnlyActive(OpenProjectModal(page, card, manifest, fetch).modal.tabs, 0, 0)
    ensures ExactlyOnePair(OpenProjectModal(page, card, manifest, fetch).modal.tabs)
  {
    var r := OpenProjectModal(page, card, manifest, fetch);
    ResolvedProjectNonEmpty(manifest, card.projectId.value, fetch);
    assert r.modal.tabs.buttons[0].id == r.modal.tabs.panes[0].id;
  }

  /** Opening and then closing the modal leaves the scroll lock as it was and the offsets at zero. */
  lemma OpenCloseRestoresLock(page: Page, card: Card, manifest: Manifest, fetch: Fetcher)
    requires !page.scrollLocked
    ensures var r := CloseProjectModal(OpenProjectModal(page, card, manifest, fetch));
            && r.scrollLocked == page.scrollLocked && !r.modal.shown
            && r.contentScroll == 0 && r.bodyScroll == 0
  {
  }

  /**
    Every grid item of an opened modal opens the lightbox, shown, on the
    image the item displays.
   */
  lemma GridClickShowsItsImage(page: Page, card: Card, manifest: Manifest, fetch: Fetcher, g: int)
    requires HasProjectId(card)
    requires 0 <= g < |OpenProjectModal(page, card, manifest, fetch).modal.gallery.grid|
    ensures var shownModal := OpenProjectModal(page, card, manifest, fetch);
            var r := ClickGridItem(shownModal, g);
            && r.viewer.shown && r.scrollLocked && r.modal.shown
            && Lightbox.InRange(r.viewer)
            && r.viewer.images[r.viewer.index].src == shownModal.modal.gallery.grid[g].src
  {
    var shownModal := OpenProjectModal(page, card, manifest, fetch);
    assert GridOpensOwnImage(shownModal.modal.gallery);
    assert Lightbox.Renders(shownModal.modal.gallery.images, shownModal.modal.gallery.grid[g].lightboxIndex);
  }

  /**
    The scroll lock is a single flag, not a count: closing a lightbox opened
    from the modal unlocks page scrolling while the modal is still shown.
   */
  lemma LightboxCloseUnlocksUnderOpenModal(page: Page, card: Card, manifest: Manifest, fetch: Fetcher, g: int)
    requires HasProjectId(card)
    requires 0 <= g < |OpenProjectModal(page, card, manifest, fetch).modal.gallery.grid|
    ensures var r := CloseLightbox(ClickGridItem(OpenProjectModal(page, card, manifest, fetch), g));
            r.modal.shown && !r.scrollLocked
  {
    GridClickShowsItsImage(page, card, manifest, fetch, g);
  }

  /** A manifest with one project of two sections and two screenshots. */
  const AlphaManifest: Manifest := map["alpha" := Descriptor(
    [SectionRef("overview", "Overview", "overview.html"), SectionRef("features", "Features", "features.html")],
    Some([Bare("one.png"), Captioned("two.png", Some("Second"))]))]

  const AlphaCard := Card(Some("alpha"), "Alpha", "banner.gif", "Unity")

  /** Opening the two-section project shows two tabs in manifest order, the first one active. */
  lemma TwoSectionScenarioTabs(fetch: Fetcher)
    ensures var tabs := OpenProjectModal(InitialPage, AlphaCard, AlphaManifest, fetch).modal.tabs;
            && |tabs.buttons| == 2 && |tabs.panes| == 2
            && tabs.buttons[0].id == "overview" && tabs.buttons[1].id == "features"
            && OnlyActive(tabs, 0, 0)
  {
    var project := GetProjectDetails(AlphaManifest, "alpha", fetch);
    assert |project.sections| == 2;
    assert project.sections[0].id == "overview" && project.sections[1].id == "features";
  }

  /**
    Opening the two-section project builds a lightbox list of three images
    with the banner first, and two grid items opening indices 1 and 2.
   */
  lemma TwoSectionScenarioGallery(fetch: Fetcher)
    ensures var gallery := OpenProjectModal(InitialPage, AlphaCard, AlphaManifest, fetch).modal.gallery;
            && |gallery.images| == 3
            && gallery.images[0] == Image("banner.gif", "Alpha - Main Banner")
            && gallery.images[1] == Image("one.png", "Alpha")
            && gallery.images[2] == Image("two.png", "Second")
            && |gallery.grid| == 2
            && gallery.grid[0].lightboxIndex == 1 && gallery.grid[1].lightboxIndex == 2
  {
    var project := GetProjectDetails(AlphaManifest, "alpha", fetch);
    var shots := ShotsOf(project);
    assert shots == [Bare("one.png"), Captioned("two.png", Some("Second"))];
    assert ShotImage(shots[0], "Alpha") == Image("one.png", "Alpha");
    assert ShotImage(shots[1], "Alpha") == Image("two.png", "Second");
    assert BannerCaption("Alpha") == "Alpha - Main Banner";
  }

  /** The two-section project's card shows the generic icon for its engine. */
  lemma TwoSectionScenarioIcon(fetch: Fetcher)
    ensures OpenProjectModal(InitialPage, AlphaCard, AlphaManifest, fetch).modal.engineIcon
         == "assets/icons/whiteunity.svg"
  {
    assert Lower("Unity") == "unity";
    assert EngineIcon("Unity") == IconPrefix + Lower("Unity") + IconSuffix;
    assert IconPrefix + "unity" + IconSuffix == "assets/icons/whiteunity.svg";
  }
}
