/**
 * `lvgl_demo_entry` in Core/Src/lvgl_demo.c: a cyclic pager the size of the screen,
 * fed by `provide_item` from logical index 0. The pager's fills (PagerSpec) and the
 * provider's labels (DemoSpec) together give what each page shows.
 */
module DemoPager {
  import opened Wrappers
  import opened PagerSpec
  import opened PagerProperties
  import DemoSpec
  import Log

  /** The label the provider draws into a page the pager filled, or none for a blank page. */
  function PageLabel(bound: Option<int>): Option<string>
  {
    match bound
    case None => None
    case Some(index) => DemoSpec.ItemLabel(index)
  }

  /** `lvgl_demo_entry` on a `w` by `h` screen. */
  function Entry(w: int, h: int): PagerState
  {
    SetProvider(Create(w, h), true, 0)
  }

  /** The entry screen is a well-formed, idle pager showing the neighbours of index 0. */
  lemma EntryWellFormed(w: int, h: int)
    ensures var st := Entry(w, h);
      WellFormed(st) && Bindings(st) && Showing(st) && !st.animRunning && st.hasProvider && st.currIndex == 0
  {
    var z := Create(w, h);
    assert WellFormed(z);
    SetProviderEstablishesBindings(z, true, 0);
  }

  /** A page with index `k` shows item `k mod 5`, with `k` itself after it. */
  lemma LabelOfIndex(k: int)
    ensures DemoSpec.ItemIndex(k, |DemoSpec.Items|) == Some(k % 5)
    ensures PageLabel(Some(k)) == Some(DemoSpec.Items[k % 5] + "\nidx=" + Log.Decimal(k))
  {
    DemoSpec.ItemIndexUnique(k, |DemoSpec.Items|, k % 5);
  }

  /** The entry screen shows the first item, with the last item before it and the second after it. */
  lemma EntryShowsFirstItems(w: int, h: int)
    ensures var st := Entry(w, h);
      && PageLabel(st.curr.bound) == Some("页面 A\nidx=0")
      && PageLabel(st.prev.bound) == Some("页面 E\nidx=-1")
      && PageLabel(st.next.bound) == Some("页面 B\nidx=1")
  {
    EntryWellFormed(w, h);
    LabelOfIndex(0);
    LabelOfIndex(-1);
    LabelOfIndex(1);
    assert Log.Decimal(0) == "0" && Log.Decimal(1) == "1" && Log.Decimal(-1) == "-1";
    assert DemoSpec.Items[0] + "\nidx=" + "0" == "页面 A\nidx=0";
    assert DemoSpec.Items[4] + "\nidx=" + "-1" == "页面 E\nidx=-1";
    assert DemoSpec.Items[1] + "\nidx=" + "1" == "页面 B\nidx=1";
  }

  /**
   * Browsing from the entry screen with `next`/`prev`, each awaited to completion: the
   * current page always shows page index `#next - #prev`, and the item it shows is that
   * index taken round the five items.
   */
  lemma Browsing(w: int, h: int, js: seq<Jump>)
    ensures var t := RunJumps(Entry(w, h), js);
      var k := Count(js, Fwd) - Count(js, Back);
      && t.currIndex == k && Showing(t) && t.hasProvider
      && PageLabel(t.curr.bound) == Some(DemoSpec.Items[k % 5] + "\nidx=" + Log.Decimal(k))
  {
    var st := Entry(w, h);
    EntryWellFormed(w, h);
    IndexAlgebra(st, js);
    var t := RunJumps(st, js);
    var k := Count(js, Fwd) - Count(js, Back);
    assert t.currIndex == k && Showing(t);
    assert t.curr.bound == Some(k);
    LabelOfIndex(k);
  }
}
