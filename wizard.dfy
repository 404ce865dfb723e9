/**
 * The page-navigation state machine of the wizard dialog
 * (src/components/Wizard.js), with the rendering stripped away.
 *
 * The component's props (`pages`, `validity`) and its state (`visiblePages`,
 * `currentKey`, `currentPage`) are the fields of `WizardComponent`; the queries the
 * component makes of that state are functions of plain values at module level.
 * JavaScript treats the empty string as false, so a page key `""` counts as
 * "no key" wherever the source tests a key for truth.
 */
module Wizard {
  import opened Wrappers
  import WizardSteps
  import Sequences

  /** A `WizardPageDefinition`, reduced to what navigation reads. */
  datatype PageDefinition = PageDefinition(key: string, title: string, optional: bool)

  /** `new WizardPageDefinition(key, title, pageTitle, page)` with the defaults: a required page. */
  function NewPageDefinition(key: string, title: string): (p: PageDefinition)
    ensures p.key == key && p.title == title && !p.optional
  {
    PageDefinition(key, title, false)
  }

  /** A `WizardPageState`; the value object `{}` is modelled as an empty map. */
  datatype PageState = PageState(key: string, value: map<string, string>, enabled: bool, valid: bool)

  /** `new WizardPageState(key)`: an empty value, enabled, not yet valid. */
  function NewPageState(key: string): (s: PageState)
    ensures s.key == key && s.value == map[]
    ensures s.enabled && !s.valid
  {
    PageState(key, map[], true, false)
  }

  /** The key of every page, in order. */
  function Keys(pages: seq<PageDefinition>): (keys: seq<string>)
    ensures |keys| == |pages|
    ensures forall i :: 0 <= i < |pages| ==> keys[i] == pages[i].key
  {
    seq(|pages|, i requires 0 <= i < |pages| => pages[i].key)
  }

  /** JavaScript truthiness of a key that may be null: null and `""` are false. */
  predicate Truthy(key: Option<string>) {
    key.Some? && key.value != ""
  }

  /** `findIndex`/`indexOf` for a key: the position of its first occurrence, or -1. */
  function IndexOf(keys: seq<string>, key: string): (r: int)
    ensures -1 <= r < |keys|
    ensures r == -1 <==> key !in keys
    ensures r >= 0 ==> keys[r] == key && key !in keys[..r]
  {
    if |keys| == 0 then -1
    else if keys[0] == key then 0
    else
      var r := IndexOf(keys[1..], key);
      assert keys[1..][..r + 1] == keys[..r + 2][1..];
      if r == -1 then -1 else r + 1
  }

  /** `getPage`: the first page with the key, or `None` (undefined) when there is none. */
  function GetPage(pages: seq<PageDefinition>, key: string): (r: Option<PageDefinition>)
    ensures r.None? <==> key !in Keys(pages)
    ensures r.Some? ==> r.value.key == key && r.value in pages
    ensures forall i :: 0 <= i < |pages| && pages[i].key == key && key !in Keys(pages)[..i] ==> r == Some(pages[i])
  {
    var i := IndexOf(Keys(pages), key);
    if i >= 0 then Some(pages[i]) else None
  }

  /** The last page with the key: the one `componentWillReceiveProps` keeps. */
  function LastPage(pages: seq<PageDefinition>, key: string): (r: Option<PageDefinition>)
    ensures r.None? <==> key !in Keys(pages)
    ensures r.Some? ==> r.value.key == key && r.value in pages
    ensures r.Some? ==> exists i :: 0 <= i < |pages| && pages[i] == r.value && forall j :: i < j < |pages| ==> pages[j].key != key
  {
    if |pages| == 0 then None
    else if pages[|pages| - 1].key == key then
      // The last index witnesses the existential: no page comes after it.
      var last := |pages| - 1;
      assert pages[last].key == key;
      Some(pages[|pages| - 1])
    else
      assert Keys(pages) == Keys(pages[..|pages| - 1]) + [pages[|pages| - 1].key];
      LastPage(pages[..|pages| - 1], key)
  }

  /**
   * `getNextPageKey`: the key right after the first occurrence of the current key,
   * or `None` when the current key is last or not visible.
   */
  function NextPageKey(visible: seq<string>, current: string): (r: Option<string>)
    ensures current !in visible ==> r == None
    ensures forall i :: 0 <= i < |visible| && visible[i] == current && current !in visible[..i] ==>
      r == if i + 1 < |visible| then Some(visible[i + 1]) else None
    ensures r.Some? ==> r.value in visible
  {
    var i := IndexOf(visible, current);
    if i >= 0 && i + 1 < |visible| then Some(visible[i + 1]) else None
  }

  /**
   * `getPreviousPageKey`: the key right before the first occurrence of the current
   * key, or `None` when the current key is first or not visible.
   */
  function PreviousPageKey(visible: seq<string>, current: string): (r: Option<string>)
    ensures current !in visible ==> r == None
    ensures forall i :: 0 <= i < |visible| && visible[i] == current && current !in visible[..i] ==>
      r == if i >= 1 then Some(visible[i - 1]) else None
    ensures r.Some? ==> r.value in visible
  {
    var i := IndexOf(visible, current);
    if i >= 1 then Some(visible[i - 1]) else None
  }

  /**
   * `currentPageValid`: the validity map holds exactly `true` for the current page's
   * key; a missing entry counts as invalid.
   */
  function CurrentPageValid(validity: map<string, bool>, currentPage: PageDefinition): (r: bool)
    ensures r ==> currentPage.key in validity
    ensures currentPage.key !in validity ==> !r
    ensures currentPage.key in validity ==> r == validity[currentPage.key]
  {
    currentPage.key in validity && validity[currentPage.key]
  }

  /** Every key names a page, so `getPage(key).optional` never dereferences undefined. */
  predicate AllPagesKnown(keys: seq<string>, pages: seq<PageDefinition>) {
    forall j :: 0 <= j < |keys| ==> keys[j] in Keys(pages)
  }

  /** `keys.some(k => !getPage(k).optional)`. */
  function AnyRequired(keys: seq<string>, pages: seq<PageDefinition>): (r: bool)
    requires AllPagesKnown(keys, pages)
    ensures r <==> exists j :: 0 <= j < |keys| && !GetPage(pages, keys[j]).value.optional
  {
    if |keys| == 0 then false
    else
      assert forall j :: 1 <= j < |keys| ==> keys[1..][j - 1] == keys[j];
      !GetPage(pages, keys[0]).value.optional || AnyRequired(keys[1..], pages)
  }

  /**
   * `doneWithRequired`: every visible page after the current one is optional. When
   * the current key is not visible, `indexOf` gives -1 and every visible page counts
   * as remaining.
   */
  function DoneWithRequired(visible: seq<string>, pages: seq<PageDefinition>, current: string): (r: bool)
    requires AllPagesKnown(visible, pages)
    ensures r <==> forall j :: IndexOf(visible, current) < j < |visible| ==> GetPage(pages, visible[j]).value.optional
  {
    var remaining := visible[IndexOf(visible, current) + 1..];
    assert forall j :: IndexOf(visible, current) < j < |visible| ==>
      visible[j] == remaining[j - IndexOf(visible, current) - 1];
    if |remaining| > 0 then !AnyRequired(remaining, pages) else true
  }

  /** The `bsStyle` of a footer button. */
  datatype Style = Primary | Default

  /** The enablement and emphasis of the Previous, Next and Finish buttons. */
  datatype Controls = Controls(canPrevious: bool, canNext: bool, canFinish: bool, nextStyle: Style, finishStyle: Style)

  /**
   * The rules of `render` for the footer buttons. Previous needs a previous key; Next
   * needs a next key and a valid current page; Finish needs no next key, or only
   * optional pages after the current one, and does not look at validity. At most one
   * of Next and Finish is the primary button.
   */
  function NavigationControls(visible: seq<string>, pages: seq<PageDefinition>, currentKey: string,
                              currentPage: PageDefinition, validity: map<string, bool>): (c: Controls)
    requires AllPagesKnown(visible, pages)
    ensures c.canPrevious <==> Truthy(PreviousPageKey(visible, currentKey))
    ensures c.canNext <==> Truthy(NextPageKey(visible, currentKey)) && CurrentPageValid(validity, currentPage)
    ensures c.canFinish <==> !Truthy(NextPageKey(visible, currentKey)) || DoneWithRequired(visible, pages, currentKey)
    ensures c.finishStyle == Primary <==> c.canFinish
    ensures c.nextStyle == Primary <==> c.canNext && !c.canFinish
    ensures !(c.nextStyle == Primary && c.finishStyle == Primary)
  {
    var previousKey := PreviousPageKey(visible, currentKey);
    var nextKey := NextPageKey(visible, currentKey);
    var canPrevious := Truthy(previousKey);
    var canNext := Truthy(nextKey) && CurrentPageValid(validity, currentPage);
    var canFinish := !Truthy(nextKey) || DoneWithRequired(visible, pages, currentKey);
    Controls(canPrevious, canNext, canFinish,
             if canNext && !canFinish then Primary else Default,
             if canFinish then Primary else Default)
  }

  /** When the current page is not valid, Next is disabled. */
  lemma NextNeedsValidPage(visible: seq<string>, pages: seq<PageDefinition>, currentKey: string,
                           currentPage: PageDefinition, validity: map<string, bool>)
    requires AllPagesKnown(visible, pages)
    requires currentPage.key !in validity || !validity[currentPage.key]
    ensures !NavigationControls(visible, pages, currentKey, currentPage, validity).canNext
  {
  }

  /** Finish is enabled on the last visible page, whatever the validity map says. */
  lemma CanFinishOnLastPage(visible: seq<string>, pages: seq<PageDefinition>, currentKey: string,
                            currentPage: PageDefinition, validity: map<string, bool>)
    requires AllPagesKnown(visible, pages)
    requires |visible| > 0 && visible[|visible| - 1] == currentKey
    requires currentKey !in visible[..|visible| - 1]
    ensures NavigationControls(visible, pages, currentKey, currentPage, validity).canFinish
  {
  }

  /** Finish is enabled when the current key is not visible (there is no next key). */
  lemma CanFinishWhenNotVisible(visible: seq<string>, pages: seq<PageDefinition>, currentKey: string,
                                currentPage: PageDefinition, validity: map<string, bool>)
    requires AllPagesKnown(visible, pages)
    requires currentKey !in visible
    ensures NavigationControls(visible, pages, currentKey, currentPage, validity).canFinish
  {
  }

  /**
   * With a next page, Finish is enabled exactly when every visible page after the
   * current one is optional.
   */
  lemma CanFinishWithNextPage(visible: seq<string>, pages: seq<PageDefinition>, i: nat,
                              currentPage: PageDefinition, validity: map<string, bool>)
    requires AllPagesKnown(visible, pages)
    requires i + 1 < |visible| && visible[i] !in visible[..i] && visible[i + 1] != ""
    ensures NavigationControls(visible, pages, visible[i], currentPage, validity).canFinish
        <==> forall j :: i < j < |visible| ==> GetPage(pages, visible[j]).value.optional
  {
    assert IndexOf(visible, visible[i]) == i;
  }

  /**
   * A next key of `""` is falsy, so Finish is enabled even though a required page
   * follows the current one.
   */
  lemma CanFinishBeforeEmptyKey()
    ensures var pages := [NewPageDefinition("a", "A"), NewPageDefinition("", "B")];
      && Keys(pages) == ["a", ""]
      && !DoneWithRequired(["a", ""], pages, "a")
      && NavigationControls(["a", ""], pages, "a", pages[0], map[]).canFinish
  {
    var pages := [NewPageDefinition("a", "A"), NewPageDefinition("", "B")];
    assert Keys(pages) == ["a", ""];
    assert IndexOf(["a", ""], "a") == 0;
  }

  /** Neither Previous nor Finish depends on the validity map. */
  lemma ControlsIgnoreValidity(visible: seq<string>, pages: seq<PageDefinition>, currentKey: string,
                               currentPage: PageDefinition, v1: map<string, bool>, v2: map<string, bool>)
    requires AllPagesKnown(visible, pages)
    ensures NavigationControls(visible, pages, currentKey, currentPage, v1).canFinish
         == NavigationControls(visible, pages, currentKey, currentPage, v2).canFinish
    ensures NavigationControls(visible, pages, currentKey, currentPage, v1).canPrevious
         == NavigationControls(visible, pages, currentKey, currentPage, v2).canPrevious
  {
  }

  /** With unique keys, the page after the current one has the current one before it. */
  lemma NextThenPreviousKey(visible: seq<string>, current: string)
    requires Sequences.Distinct(visible)
    requires NextPageKey(visible, current).Some?
    ensures PreviousPageKey(visible, NextPageKey(visible, current).value) == Some(current)
  {
    var i := IndexOf(visible, current);
    var next := visible[i + 1];
    assert next !in visible[..i + 1];
    assert PreviousPageKey(visible, next) == Some(visible[i]);
  }

  /** With unique keys, a page is the page `getPage` finds for its key. */
  lemma GetPageUnique(pages: seq<PageDefinition>, p: PageDefinition)
    requires Sequences.Distinct(Keys(pages)) && p in pages
    ensures GetPage(pages, p.key) == Some(p)
  {
    var i :| 0 <= i < |pages| && pages[i] == p;
    assert p.key !in Keys(pages)[..i];
  }

  /**
   * The steps `render` hands to the step list: one per visible key, titled by its
   * page, with the default flags.
   */
  method StepList(visible: seq<string>, pages: seq<PageDefinition>) returns (steps: seq<WizardSteps.Step>)
    requires AllPagesKnown(visible, pages)
    ensures |steps| == |visible|
    ensures forall i :: 0 <= i < |visible| ==>
      steps[i] == WizardSteps.NewStep(visible[i], GetPage(pages, visible[i]).value.title)
  {
    steps := [];
    for i := 0 to |visible|
      invariant |steps| == i
      invariant forall j :: 0 <= j < i ==> steps[j] == WizardSteps.NewStep(visible[j], GetPage(pages, visible[j]).value.title)
    {
      steps := steps + [WizardSteps.NewStep(visible[i], GetPage(pages, visible[i]).value.title)];
    }
  }

  /**
   * In the wizard's own step list every step is enabled and incomplete, so every
   * step but the current one is a plain clickable button.
   */
  lemma WizardStepButtons(steps: seq<WizardSteps.Step>, visible: seq<string>, pages: seq<PageDefinition>,
                          currentKey: string, i: nat)
    requires AllPagesKnown(visible, pages)
    requires |steps| == |visible| && i < |steps|
    requires forall j :: 0 <= j < |visible| ==>
      steps[j] == WizardSteps.NewStep(visible[j], GetPage(pages, visible[j]).value.title)
    ensures var b := WizardSteps.Classify(steps[i], currentKey);
      if visible[i] == currentKey then b.className == WizardSteps.CurrentClass && b.onClick == None
      else b.className == WizardSteps.BaseClass && b.onClick == Some(visible[i]) && !b.disabled
  {
  }

  /** The wizard component: its props and its state. */
  class WizardComponent {
    /** `this.props.pages`; compared by reference when new props arrive. */
    var pages: array<PageDefinition>
    /** `this.props.validity`. */
    var validity: map<string, bool>
    var visiblePages: seq<string>
    var currentKey: string
    var currentPage: PageDefinition

    /**
     * The visible keys are those of the pages prop; the current page carries the
     * current key and, while that key is visible, is one of the pages.
     */
    ghost predicate Valid()
      reads this, pages
      ensures Valid() ==> |visiblePages| == pages.Length
      ensures Valid() ==> forall i :: 0 <= i < pages.Length ==> visiblePages[i] == pages[i].key
    {
      && visiblePages == Keys(pages[..])
      && currentPage.key == currentKey
      && (currentKey in visiblePages ==> currentPage in pages[..])
    }

    /** The constructor: every page is visible and the first one is current. */
    constructor (pages: array<PageDefinition>, validity: map<string, bool>)
      requires pages.Length > 0
      ensures Valid()
      ensures this.pages == pages && this.validity == validity
      ensures visiblePages == Keys(pages[..])
      ensures currentKey == pages[0].key && currentPage == pages[0]
      ensures PreviousPageKey(visiblePages, currentKey) == None
    {
      var visible: seq<string> := [];
      for i := 0 to pages.Length
        invariant visible == Keys(pages[..i])
      {
        assert Keys(pages[..i + 1]) == Keys(pages[..i]) + [pages[i].key];
        visible := visible + [pages[i].key];
      }
      assert pages[..pages.Length] == pages[..];
      this.pages := pages;
      this.validity := validity;
      visiblePages := visible;
      currentKey := pages[0].key;
      currentPage := pages[0];
    }

    /**
     * `componentWillReceiveProps` followed by React's update of the props. A new
     * pages array recomputes the visible keys; the current key never changes; the
     * current page becomes the last new page with the current key, if any, and
     * otherwise stays. The same array leaves the state as it was.
     */
    method ReceiveProps(newPages: array<PageDefinition>, newValidity: map<string, bool>)
      requires Valid()
      modifies this
      ensures Valid()
      ensures pages == newPages && validity == newValidity
      ensures visiblePages == Keys(newPages[..])
      ensures currentKey == old(currentKey)
      ensures newPages == old(pages) ==> visiblePages == old(visiblePages) && currentPage == old(currentPage)
      ensures newPages != old(pages) ==> currentPage == LastPage(newPages[..], currentKey).GetOr(old(currentPage))
    {
      if newPages != pages {
        var visible: seq<string> := [];
        var page := currentPage;
        for i := 0 to newPages.Length
          invariant visible == Keys(newPages[..i])
          invariant page == LastPage(newPages[..i], currentKey).GetOr(old(currentPage))
        {
          assert newPages[..i + 1][..i] == newPages[..i];
          assert Keys(newPages[..i + 1]) == Keys(newPages[..i]) + [newPages[i].key];
          visible := visible + [newPages[i].key];
          if newPages[i].key == currentKey {
            page := newPages[i];
          }
        }
        assert newPages[..newPages.Length] == newPages[..];
        visiblePages, currentPage := visible, page;
      }
      pages, validity := newPages, newValidity;
    }

    /**
     * `changePage`: a truthy key becomes current, together with the first page that
     * has it; null or `""` changes nothing.
     */
    method ChangePage(newPageKey: Option<string>)
      requires Valid()
      requires Truthy(newPageKey) ==> newPageKey.value in visiblePages
      modifies this
      ensures Valid()
      ensures pages == old(pages) && validity == old(validity) && visiblePages == old(visiblePages)
      ensures Truthy(newPageKey) ==> currentKey == newPageKey.value && currentPage == GetPage(pages[..], currentKey).value
      ensures !Truthy(newPageKey) ==> currentKey == old(currentKey) && currentPage == old(currentPage)
    {
      if Truthy(newPageKey) {
        var newPage := GetPage(pages[..], newPageKey.value);
        currentKey, currentPage := newPageKey.value, newPage.value;
      }
    }

    /**
     * `nextPage`: moves to the next visible key whenever there is a truthy one. It
     * does not consult validity; only the Next button's `disabled` does.
     */
    method NextPage()
      requires Valid()
      modifies this
      ensures Valid()
      ensures pages == old(pages) && validity == old(validity) && visiblePages == old(visiblePages)
      ensures var next := NextPageKey(old(visiblePages), old(currentKey));
        if Truthy(next) then currentKey == next.value && currentPage == GetPage(pages[..], next.value).value
        else currentKey == old(currentKey) && currentPage == old(currentPage)
    {
      ChangePage(NextPageKey(visiblePages, currentKey));
    }

    /** `previousPage`: moves to the previous visible key whenever there is a truthy one. */
    method PreviousPage()
      requires Valid()
      modifies this
      ensures Valid()
      ensures pages == old(pages) && validity == old(validity) && visiblePages == old(visiblePages)
      ensures var previous := PreviousPageKey(old(visiblePages), old(currentKey));
        if Truthy(previous) then currentKey == previous.value && currentPage == GetPage(pages[..], previous.value).value
        else currentKey == old(currentKey) && currentPage == old(currentPage)
    {
      ChangePage(PreviousPageKey(visiblePages, currentKey));
    }

    /**
     * Next followed by Previous returns to the same page when the keys are unique and
     * the current key is not `""` (an empty previous key would be ignored).
     */
    method NextThenPrevious()
      requires Valid()
      requires Sequences.Distinct(visiblePages) && currentKey != ""
      requires Truthy(NextPageKey(visiblePages, currentKey))
      modifies this
      ensures Valid()
      ensures pages == old(pages) && validity == old(validity) && visiblePages == old(visiblePages)
      ensures currentKey == old(currentKey) && currentPage == old(currentPage)
    {
      NextThenPreviousKey(visiblePages, currentKey);
      ghost var page := currentPage;
      NextPage();
      PreviousPage();
      GetPageUnique(pages[..], page);
    }

    /** `cancel`: calls `onFinish(null)`; the result is the argument passed. */
    method Cancel() returns (onFinishArgument: Option<bool>)
      ensures onFinishArgument == None
    {
      onFinishArgument := None;
    }

    /** `finish`: calls `onFinish(true)`, not with a map of page values. */
    method Finish() returns (onFinishArgument: Option<bool>)
      ensures onFinishArgument == Some(true)
    {
      onFinishArgument := Some(true);
    }
  }
}
