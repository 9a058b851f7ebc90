/**
  The tab bar of the project modal: one button and one pane per resolved
  section, with `active` flags standing for the `active` CSS class. A
  selector query is modelled as "the first element in document order that
  matches", as `querySelector` returns.
 */
module Tabs {
  import opened Projects

  datatype Button = Button(id: string, title: string, active: bool)

  datatype Pane = Pane(id: string, content: string, active: bool)

  datatype TabBar = TabBar(buttons: seq<Button>, panes: seq<Pane>)

  /** The transient class a click puts on the outgoing and incoming panes. */
  datatype Slide = SlideLeft | SlideRight

  /** What a click on a tab button leaves behind once its timeout has run. */
  datatype ClickOutcome =
    | Switched(bar: TabBar, slide: Slide)
      /** The handler throws part-way: no active button, no active pane, or no pane for the tab. */
    | Faulted

  /** `indexOf`/`querySelector`: the position of the first occurrence of `x`, or -1. */
  function FirstIndex<T(==)>(s: seq<T>, x: T): (r: int)
    ensures -1 <= r < |s|
    ensures r >= 0 ==> s[r] == x && forall k :: 0 <= k < r ==> s[k] != x
    ensures r == -1 <==> forall k :: 0 <= k < |s| ==> s[k] != x
    decreases |s|
  {
    if |s| == 0 then -1
    else if s[0] == x then 0
    else
      var rest := FirstIndex(s[1..], x);
      if rest < 0 then -1 else rest + 1
  }

  function ButtonIds(bar: TabBar): (ids: seq<string>)
    ensures |ids| == |bar.buttons| && forall i :: 0 <= i < |ids| ==> ids[i] == bar.buttons[i].id
  {
    seq(|bar.buttons|, i requires 0 <= i < |bar.buttons| => bar.buttons[i].id)
  }

  function PaneIds(bar: TabBar): (ids: seq<string>)
    ensures |ids| == |bar.panes| && forall i :: 0 <= i < |ids| ==> ids[i] == bar.panes[i].id
  {
    seq(|bar.panes|, i requires 0 <= i < |bar.panes| => bar.panes[i].id)
  }

  function ButtonFlags(bar: TabBar): (flags: seq<bool>)
    ensures |flags| == |bar.buttons| && forall i :: 0 <= i < |flags| ==> flags[i] == bar.buttons[i].active
  {
    seq(|bar.buttons|, i requires 0 <= i < |bar.buttons| => bar.buttons[i].active)
  }

  function PaneFlags(bar: TabBar): (flags: seq<bool>)
    ensures |flags| == |bar.panes| && forall i :: 0 <= i < |flags| ==> flags[i] == bar.panes[i].active
  {
    seq(|bar.panes|, i requires 0 <= i < |bar.panes| => bar.panes[i].active)
  }

  /** Button `i` and pane `j` are the only active ones. */
  predicate OnlyActive(bar: TabBar, i: int, j: int)
  {
    && 0 <= i < |bar.buttons|
    && 0 <= j < |bar.panes|
    && (forall k :: 0 <= k < |bar.buttons| ==> (bar.buttons[k].active <==> k == i))
    && (forall k :: 0 <= k < |bar.panes| ==> (bar.panes[k].active <==> k == j))
  }

  /** Exactly one button and one pane are active, and they belong to the same tab. */
  ghost predicate ExactlyOnePair(bar: TabBar)
  {
    exists i, j :: OnlyActive(bar, i, j) && bar.buttons[i].id == bar.panes[j].id
  }

  predicate NoneActive(bar: TabBar)
  {
    && (forall k :: 0 <= k < |bar.buttons| ==> !bar.buttons[k].active)
    && (forall k :: 0 <= k < |bar.panes| ==> !bar.panes[k].active)
  }

  /** Two bars hold the same tabs, whatever their active flags. */
  predicate SameTabs(a: TabBar, b: TabBar)
  {
    && |a.buttons| == |b.buttons| && |a.panes| == |b.panes|
    && (forall k :: 0 <= k < |a.buttons| ==> a.buttons[k].(active := false) == b.buttons[k].(active := false))
    && (forall k :: 0 <= k < |a.panes| ==> a.panes[k].(active := false) == b.panes[k].(active := false))
  }

  /** Button `k` and pane `k` belong to the same tab, for every `k`. */
  predicate Aligned(bar: TabBar)
  {
    |bar.buttons| == |bar.panes| && forall k :: 0 <= k < |bar.buttons| ==> bar.buttons[k].id == bar.panes[k].id
  }

  /** A button and a pane both answer to `id`. */
  predicate HasTab(bar: TabBar, id: string)
  {
    && (exists i :: 0 <= i < |bar.buttons| && bar.buttons[i].id == id)
    && (exists j :: 0 <= j < |bar.panes| && bar.panes[j].id == id)
  }

  /** Make button `b` and pane `p` the only active ones; -1 activates none. */
  function Activate(bar: TabBar, b: int, p: int): (r: TabBar)
    ensures SameTabs(bar, r)
    ensures forall k :: 0 <= k < |r.buttons| ==> (r.buttons[k].active <==> k == b)
    ensures forall k :: 0 <= k < |r.panes| ==> (r.panes[k].active <==> k == p)
  {
    TabBar(seq(|bar.buttons|, k requires 0 <= k < |bar.buttons| => bar.buttons[k].(active := k == b)),
           seq(|bar.panes|, k requires 0 <= k < |bar.panes| => bar.panes[k].(active := k == p)))
  }

  /** `buildTabbedModalContent`: one button and one pane per section, in order, the first active. */
  function Build(sections: seq<ResolvedSection>): (bar: TabBar)
    ensures Aligned(bar) && |bar.buttons| == |sections|
    ensures forall k :: 0 <= k < |sections| ==>
              && bar.buttons[k].id == sections[k].id && bar.buttons[k].title == sections[k].title
              && bar.panes[k].content == sections[k].content
    ensures |sections| > 0 ==> OnlyActive(bar, 0, 0)
    ensures |sections| == 0 ==> NoneActive(bar)
  {
    TabBar(seq(|sections|, k requires 0 <= k < |sections| => Button(sections[k].id, sections[k].title, k == 0)),
           seq(|sections|, k requires 0 <= k < |sections| => Pane(sections[k].id, sections[k].content, k == 0)))
  }

  /**
    `switchToTab`: when a button and a pane answer to `id`, the first of each
    becomes the only active pair; otherwise nothing changes.
   */
  function SwitchToTab(bar: TabBar, id: string): (r: TabBar)
    ensures SameTabs(bar, r)
    ensures HasTab(bar, id) ==>
              exists i, j :: OnlyActive(r, i, j) && r.buttons[i].id == id && r.panes[j].id == id
    ensures HasTab(bar, id) ==> OnlyActive(r, FirstIndex(ButtonIds(bar), id), FirstIndex(PaneIds(bar), id))
    ensures !HasTab(bar, id) ==> r == bar
  {
    var b := FirstIndex(ButtonIds(bar), id);
    var p := FirstIndex(PaneIds(bar), id);
    if b >= 0 && p >= 0 then
      var r := Activate(bar, b, p);
      assert OnlyActive(r, b, p);
      r
    else bar
  }

  /**
    The reset in `openProjectModal`: the first button becomes the only active
    one, with the first pane that answers to its id.
   */
  function ResetToFirst(bar: TabBar): (r: TabBar)
    ensures SameTabs(bar, r)
    ensures |bar.buttons| == 0 ==> r == bar
    ensures |bar.buttons| > 0 && HasTab(bar, bar.buttons[0].id) ==>
              exists j :: OnlyActive(r, 0, j) && r.panes[j].id == r.buttons[0].id
    ensures |bar.buttons| > 0 ==>
              && (forall k :: 0 <= k < |r.buttons| ==> (r.buttons[k].active <==> k == 0))
              && (forall k :: 0 <= k < |r.panes| ==> (r.panes[k].active <==> k == FirstIndex(PaneIds(bar), bar.buttons[0].id)))
  {
    if |bar.buttons| == 0 then bar
    else
      var p := FirstIndex(PaneIds(bar), bar.buttons[0].id);
      var r := Activate(bar, 0, p);
      assert p >= 0 ==> OnlyActive(r, 0, p);
      r
  }

  /**
    Take the class off button `from` and pane `fromPane`, then put it on
    button `to` and pane `toPane`.
   */
  function MoveActive(bar: TabBar, from: int, fromPane: int, to: int, toPane: int): (r: TabBar)
    requires 0 <= from < |bar.buttons| && 0 <= to < |bar.buttons|
    requires 0 <= fromPane < |bar.panes| && 0 <= toPane < |bar.panes|
    ensures SameTabs(bar, r)
    ensures forall m :: 0 <= m < |r.buttons| ==>
              (r.buttons[m].active <==> m == to || (m != from && bar.buttons[m].active))
    ensures forall m :: 0 <= m < |r.panes| ==>
              (r.panes[m].active <==> m == toPane || (m != fromPane && bar.panes[m].active))
  {
    var buttons := bar.buttons[from := bar.buttons[from].(active := false)];
    var panes := bar.panes[fromPane := bar.panes[fromPane].(active := false)];
    TabBar(buttons[to := buttons[to].(active := true)], panes[toPane := panes[toPane].(active := true)])
  }

  /** When one pair is the only active one, the queries for the active button and pane find it. */
  lemma FirstActiveIsOnlyActive(bar: TabBar)
    ensures forall i, j :: OnlyActive(bar, i, j) ==>
              FirstIndex(ButtonFlags(bar), true) == i && FirstIndex(PaneFlags(bar), true) == j
  {
    forall i, j | OnlyActive(bar, i, j)
      ensures FirstIndex(ButtonFlags(bar), true) == i && FirstIndex(PaneFlags(bar), true) == j
    {
      assert ButtonFlags(bar)[i] && PaneFlags(bar)[j];
    }
  }

  /**
    The click handler of tab button `k`: the first active button and pane
    lose the class, button `k` and the first pane answering to its id gain
    it. The slide runs right exactly when `k` lies after the previously
    active button.
   */
  function ClickTab(bar: TabBar, k: int): (out: ClickOutcome)
    requires 0 <= k < |bar.buttons|
    ensures out.Faulted? <==>
              || (forall m :: 0 <= m < |bar.buttons| ==> !bar.buttons[m].active)
              || (forall m :: 0 <= m < |bar.panes| ==> !bar.panes[m].active)
              || (forall m :: 0 <= m < |bar.panes| ==> bar.panes[m].id != bar.buttons[k].id)
    ensures out.Switched? ==> SameTabs(bar, out.bar) && out.bar.buttons[k].active
    ensures forall i, j :: OnlyActive(bar, i, j) ==>
              out.Switched? ==> (out.slide == SlideRight <==> k > i)
    ensures forall i, j :: OnlyActive(bar, i, j) ==>
              out.Switched? ==> OnlyActive(out.bar, k, FirstIndex(PaneIds(bar), bar.buttons[k].id))
  {
    var cur := FirstIndex(ButtonFlags(bar), true);
    var curPane := FirstIndex(PaneFlags(bar), true);
    var next := FirstIndex(PaneIds(bar), bar.buttons[k].id);
    FirstActiveIsOnlyActive(bar);
    if cur < 0 || curPane < 0 || next < 0 then Faulted
    else Switched(MoveActive(bar, cur, curPane, k, next), if k > cur then SlideRight else SlideLeft)
  }

  /**
    From a bar whose only active pair is button `i` and pane `j`, a click on
    button `k` makes button `k` and a pane of the same tab the only active
    pair, and slides right exactly when `k` comes after `i`.
   */
  lemma ClickMovesActivePair(bar: TabBar, k: int, i: int, j: int)
    requires 0 <= k < |bar.buttons|
    requires OnlyActive(bar, i, j) && HasTab(bar, bar.buttons[k].id)
    ensures ClickTab(bar, k).Switched?
    ensures ClickTab(bar, k).Switched? ==> (ClickTab(bar, k).slide == SlideRight <==> k > i)
    ensures ClickTab(bar, k).Switched? ==>
              exists p :: OnlyActive(ClickTab(bar, k).bar, k, p) && ClickTab(bar, k).bar.panes[p].id == bar.buttons[k].id
  {
    assert ButtonFlags(bar)[i] && PaneFlags(bar)[j];
    var cur := FirstIndex(ButtonFlags(bar), true);
    var curPane := FirstIndex(PaneFlags(bar), true);
    assert cur == i && curPane == j;
    var q :| 0 <= q < |bar.panes| && bar.panes[q].id == bar.buttons[k].id;
    assert PaneIds(bar)[q] == bar.buttons[k].id;
    var next := FirstIndex(PaneIds(bar), bar.buttons[k].id);
    assert OnlyActive(ClickTab(bar, k).bar, k, next);
  }

  /** Two re-flaggings of one bar with the same only active pair are the same bar. */
  lemma SameActivePairSameBar(bar: TabBar, a: TabBar, b: TabBar, i: int, j: int)
    requires SameTabs(bar, a) && SameTabs(bar, b)
    requires OnlyActive(a, i, j) && OnlyActive(b, i, j)
    ensures a == b
  {
    forall m | 0 <= m < |bar.buttons|
      ensures a.buttons[m] == b.buttons[m]
    {
      assert a.buttons[m].(active := false) == bar.buttons[m].(active := false) == b.buttons[m].(active := false);
    }
    forall m | 0 <= m < |bar.panes|
      ensures a.panes[m] == b.panes[m]
    {
      assert a.panes[m].(active := false) == bar.panes[m].(active := false) == b.panes[m].(active := false);
    }
  }

  /**
    On a bar with one active pair, clicking a button whose id no earlier
    button shares ends in the same state as `switchToTab` with that id.
   */
  lemma ClickAgreesWithSwitch(bar: TabBar, k: int)
    requires 0 <= k < |bar.buttons|
    requires ExactlyOnePair(bar) && HasTab(bar, bar.buttons[k].id)
    requires forall i :: 0 <= i < k ==> bar.buttons[i].id != bar.buttons[k].id
    ensures ClickTab(bar, k).Switched?
    ensures ClickTab(bar, k).Switched? ==> ClickTab(bar, k).bar == SwitchToTab(bar, bar.buttons[k].id)
  {
    var i, j :| OnlyActive(bar, i, j) && bar.buttons[i].id == bar.panes[j].id;
    ClickMovesActivePair(bar, k, i, j);
    var out := ClickTab(bar, k);
    var sw := SwitchToTab(bar, bar.buttons[k].id);
    var p := FirstIndex(PaneIds(bar), bar.buttons[k].id);
    assert ButtonFlags(bar)[i] && PaneFlags(bar)[j];
    assert FirstIndex(ButtonFlags(bar), true) == i && FirstIndex(PaneFlags(bar), true) == j;
    assert out.bar == MoveActive(bar, i, j, k, p);
    assert FirstIndex(ButtonIds(bar), bar.buttons[k].id) == k;
    assert sw == Activate(bar, k, p);
    assert OnlyActive(out.bar, k, p);
    assert OnlyActive(sw, k, p);
    SameActivePairSameBar(bar, out.bar, sw, k, p);
  }

  /** Resetting a freshly built bar changes nothing: the first tab is already the active one. */
  lemma ResetAfterBuild(sections: seq<ResolvedSection>)
    ensures ResetToFirst(Build(sections)) == Build(sections)
  {
    var bar := Build(sections);
    if |sections| > 0 {
      assert FirstIndex(PaneIds(bar), bar.buttons[0].id) == 0;
      assert ResetToFirst(bar).buttons == bar.buttons;
      assert ResetToFirst(bar).panes == bar.panes;
    }
  }

  /** Switching to any id keeps one active pair, from a bar that has one active pair. */
  lemma SwitchKeepsOnePair(bar: TabBar, id: string)
    requires ExactlyOnePair(bar)
    ensures ExactlyOnePair(SwitchToTab(bar, id))
  {
  }
}
