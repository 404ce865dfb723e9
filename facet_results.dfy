/**
 * Facet ordering and display-type dispatch (src/components/FacetResults.js), with
 * the React elements replaced by values: a custom renderer's element is an opaque
 * `Element`, and the built-in fallback is `BuiltIn(facet, type)`.
 *
 * The file as written has two bugs (see the Findings of the README): line 351
 * calls `renderBuiltInFacetType` without `this.`, and line 364 passes the undefined
 * `facetContents` instead of the parameter `contents`. `FindFacetContents`,
 * `PushFacetToResults` and `RenderFacets` model the evident intent; the members
 * whose names end in `AsWritten` model the code as it stands.
 */
module FacetResults {
  import opened Wrappers
  import Sequences

  /** A facet-type list prop: `null`, a single field name, or an array of field names. */
  datatype FacetList = NoList | Single(name: string) | Many(names: seq<string>)

  /**
   * `matchesFacetList`: false for `null` and for `""` (both falsy); a string list
   * matches by equality, an array by membership.
   */
  function MatchesFacetList(field: string, facetList: FacetList): (r: bool)
    ensures facetList.NoList? ==> !r
    ensures facetList.Single? ==> (r <==> facetList.name != "" && facetList.name == field)
    ensures facetList.Many? ==> (r <==> field in facetList.names)
  {
    match facetList
    case NoList => false
    case Single(name) => name != "" && name == field
    case Many(names) => field in names
  }

  datatype DisplayType =
    PieChart | BarChart | ColumnChart | BarList | TagCloud | TimeSeries | Sentiment | GeoMap | List

  /** The eight facet-type list props. */
  datatype TypeLists = TypeLists(
    pieChartFacets: FacetList, barChartFacets: FacetList, columnChartFacets: FacetList,
    barListFacets: FacetList, tagCloudFacets: FacetList, timeSeriesFacets: FacetList,
    sentimentFacets: FacetList, geoMapFacets: FacetList)

  /** The position of a type in the order `getFacetDisplayType` tries the lists; `List` is last. */
  function Rank(t: DisplayType): nat {
    match t
    case PieChart => 0
    case BarChart => 1
    case ColumnChart => 2
    case BarList => 3
    case TagCloud => 4
    case TimeSeries => 5
    case Sentiment => 6
    case GeoMap => 7
    case List => 8
  }

  /** The list prop that selects a type (nothing selects `List`). */
  function ListFor(lists: TypeLists, t: DisplayType): FacetList {
    match t
    case PieChart => lists.pieChartFacets
    case BarChart => lists.barChartFacets
    case ColumnChart => lists.columnChartFacets
    case BarList => lists.barListFacets
    case TagCloud => lists.tagCloudFacets
    case TimeSeries => lists.timeSeriesFacets
    case Sentiment => lists.sentimentFacets
    case GeoMap => lists.geoMapFacets
    case List => NoList
  }

  /**
   * `getFacetDisplayType`: the first type, in the fixed order piechart, barchart,
   * columnchart, barlist, tagcloud, timeseries, sentiment, geomap, whose list names
   * the field; `List` when none does.
   */
  function GetFacetDisplayType(lists: TypeLists, field: string): (t: DisplayType)
    ensures t != List ==> MatchesFacetList(field, ListFor(lists, t))
    ensures forall u :: Rank(u) < Rank(t) ==> !MatchesFacetList(field, ListFor(lists, u))
  {
    if MatchesFacetList(field, lists.pieChartFacets) then PieChart
    else if MatchesFacetList(field, lists.barChartFacets) then BarChart
    else if MatchesFacetList(field, lists.columnChartFacets) then ColumnChart
    else if MatchesFacetList(field, lists.barListFacets) then BarList
    else if MatchesFacetList(field, lists.tagCloudFacets) then TagCloud
    else if MatchesFacetList(field, lists.timeSeriesFacets) then TimeSeries
    else if MatchesFacetList(field, lists.sentimentFacets) then Sentiment
    else if MatchesFacetList(field, lists.geoMapFacets) then GeoMap
    else List
  }

  /** The contract of `GetFacetDisplayType` determines the type. */
  lemma DisplayTypeIsUnique(lists: TypeLists, field: string, t: DisplayType)
    requires t != List ==> MatchesFacetList(field, ListFor(lists, t))
    requires forall u :: Rank(u) < Rank(t) ==> !MatchesFacetList(field, ListFor(lists, u))
    ensures t == GetFacetDisplayType(lists, field)
  {
  }

  datatype Bucket = Bucket(value: string, count: nat)

  /** A `SearchFacet`: `name` orders it, `field` selects its type; `[]` stands for missing buckets. */
  datatype Facet = Facet(name: string, field: string, displayName: string, buckets: seq<Bucket>)

  /** `findLabel`: the display name, falling back to the name. */
  function FindLabel(facet: Facet): string {
    if facet.displayName != "" then facet.displayName else facet.name
  }

  /** An element a custom renderer returns; an object, hence truthy. */
  datatype Element = Element(id: nat)

  /** A `FacetContentsRenderer`: `None` is any falsy result. */
  type Renderer = (Facet, int, DisplayType) -> Option<Element>

  /** The props that the ordering and dispatch read. */
  datatype Props = Props(lists: TypeLists, orderHint: seq<string>, showEmptyFacets: bool, renderers: seq<Renderer>)

  /** What a facet's contents are: a custom renderer's element, or the built-in type. */
  datatype Contents = Custom(element: Element) | BuiltIn(facet: Facet, displayType: DisplayType)

  /**
   * `shouldShow`: whether a facet's contents are computed. An empty facet gets
   * contents only with `showEmptyFacets`; its entry is pushed either way.
   */
  function ShouldShow(props: Props, facet: Facet): (r: bool)
    ensures r <==> props.showEmptyFacets || |facet.buckets| > 0
  {
    props.showEmptyFacets || |facet.buckets| > 0
  }

  /** The first renderer with a truthy result, or `|renderers|` when there is none. */
  function FirstRenderer(renderers: seq<Renderer>, facet: Facet, index: int, displayType: DisplayType): (k: nat)
    ensures k <= |renderers|
    ensures forall j :: 0 <= j < k ==> renderers[j](facet, index, displayType).None?
    ensures k < |renderers| ==> renderers[k](facet, index, displayType).Some?
  {
    if |renderers| == 0 then 0
    else if renderers[0](facet, index, displayType).Some? then 0
    else
      var k := FirstRenderer(renderers[1..], facet, index, displayType);
      assert forall j :: 1 <= j < k + 1 ==> renderers[j] == renderers[1..][j - 1];
      k + 1
  }

  /** `FirstRenderer` is the only index with its two properties. */
  lemma FirstRendererIs(renderers: seq<Renderer>, facet: Facet, index: int, displayType: DisplayType, k: nat)
    requires k <= |renderers|
    requires forall j :: 0 <= j < k ==> renderers[j](facet, index, displayType).None?
    requires k < |renderers| ==> renderers[k](facet, index, displayType).Some?
    ensures FirstRenderer(renderers, facet, index, displayType) == k
  {
  }

  /**
   * What `findFacetContents` evidently means: nothing for a facet `shouldShow` rejects; otherwise
   * the first truthy renderer result, or else the built-in type.
   */
  function FacetContents(props: Props, facet: Facet, index: int): (c: Option<Contents>)
    ensures c.None? <==> !ShouldShow(props, facet)
    ensures c.Some? && c.value.BuiltIn? ==>
      c.value == BuiltIn(facet, GetFacetDisplayType(props.lists, facet.field))
      && forall j :: 0 <= j < |props.renderers| ==>
           props.renderers[j](facet, index, GetFacetDisplayType(props.lists, facet.field)).None?
    ensures c.Some? && c.value.Custom? ==>
      (exists k :: 0 <= k < |props.renderers|
        && (forall j :: 0 <= j < k ==> props.renderers[j](facet, index, GetFacetDisplayType(props.lists, facet.field)).None?)
        && props.renderers[k](facet, index, GetFacetDisplayType(props.lists, facet.field)) == Some(c.value.element))
  {
    if !ShouldShow(props, facet) then None
    else
      var displayType := GetFacetDisplayType(props.lists, facet.field);
      var k := FirstRenderer(props.renderers, facet, index, displayType);
      if k < |props.renderers| then Some(Custom(props.renderers[k](facet, index, displayType).value))
      else Some(BuiltIn(facet, displayType))
  }

  /**
   * `findFacetContents` (with the built-in fallback it evidently intends). `calls` is
   * how many renderers it invokes: none for a facet `shouldShow` rejects, and no renderer after
   * the first one that gives a truthy result.
   */
  method FindFacetContents(props: Props, facet: Facet, index: int) returns (result: Option<Contents>, ghost calls: nat)
    ensures result == FacetContents(props, facet, index)
    ensures !ShouldShow(props, facet) ==> calls == 0
    ensures ShouldShow(props, facet) ==>
      var k := FirstRenderer(props.renderers, facet, index, GetFacetDisplayType(props.lists, facet.field));
      calls == if k < |props.renderers| then k + 1 else k
  {
    result := None;
    calls := 0;
    if ShouldShow(props, facet) {
      var displayType := GetFacetDisplayType(props.lists, facet.field);
      var i := 0;
      while i < |props.renderers|
        invariant 0 <= i <= |props.renderers| && calls == i
        invariant forall j :: 0 <= j < i ==> props.renderers[j](facet, index, displayType).None?
        invariant result == None
      {
        var renderer := props.renderers[i];
        var rendered := renderer(facet, index, displayType);
        calls := calls + 1;
        if rendered.Some? {
          FirstRendererIs(props.renderers, facet, index, displayType, i);
          result := Some(Custom(rendered.value));
          break;
        }
        i := i + 1;
      }
      if result.None? {
        FirstRendererIs(props.renderers, facet, index, displayType, i);
        result := Some(BuiltIn(facet, displayType));
      }
    }
  }

  /** The exception the unqualified calls and names raise. */
  datatype JsError = ReferenceError(identifier: string)

  /**
   * `findFacetContents` as written: when no renderer gives a truthy result it calls
   * `renderBuiltInFacetType`, which is not in scope without `this.`, and throws.
   */
  function FindFacetContentsAsWritten(props: Props, facet: Facet, index: int): (r: Result<Option<Contents>, JsError>)
    ensures r.Err? <==> FacetContents(props, facet, index) == Some(BuiltIn(facet, GetFacetDisplayType(props.lists, facet.field)))
    ensures r.Ok? ==> r.value == FacetContents(props, facet, index)
  {
    if !ShouldShow(props, facet) then Ok(None)
    else
      var displayType := GetFacetDisplayType(props.lists, facet.field);
      var k := FirstRenderer(props.renderers, facet, index, displayType);
      if k < |props.renderers| then Ok(Some(Custom(props.renderers[k](facet, index, displayType).value)))
      else Err(ReferenceError("renderBuiltInFacetType"))
  }

  const NoLists := TypeLists(NoList, NoList, NoList, NoList, NoList, NoList, NoList, NoList)

  /** With the default props (no renderers), any facet with a bucket makes the code as written throw. */
  lemma BuiltInFallbackThrows()
    ensures FindFacetContentsAsWritten(Props(NoLists, [], false, []), Facet("f", "f", "", [Bucket("x", 1)]), 1)
         == Err(ReferenceError("renderBuiltInFacetType"))
  {
  }

  /** The `<Facet name field contents collapse />` element pushed for one facet. */
  datatype FacetEntry = FacetEntry(name: string, field: string, contents: Option<Contents>)

  /** `pushFacetToResults` as evidently intended: the entry carries `contents`. */
  function PushFacetToResults(facet: Facet, contents: Option<Contents>): (e: FacetEntry)
    ensures e.contents == contents && e.field == facet.field
    ensures e.name == if facet.displayName != "" then facet.displayName else facet.name
  {
    FacetEntry(FindLabel(facet), facet.field, contents)
  }

  /** `pushFacetToResults` as written: evaluating the undefined `facetContents` throws. */
  function PushFacetToResultsAsWritten(facet: Facet, contents: Option<Contents>): (r: Result<FacetEntry, JsError>)
    ensures r == Err(ReferenceError("facetContents"))
  {
    Err(ReferenceError("facetContents"))
  }

  function Names(facets: seq<Facet>): (names: seq<string>)
    ensures |names| == |facets|
    ensures forall i :: 0 <= i < |facets| ==> names[i] == facets[i].name
  {
    seq(|facets|, i requires 0 <= i < |facets| => facets[i].name)
  }

  /** The `Map` from name to facet that `renderFacets` builds: a later facet replaces an earlier one. */
  function NameMap(facets: seq<Facet>): (m: map<string, Facet>)
    ensures forall n :: n in m ==> m[n] in facets && m[n].name == n
    ensures forall i :: 0 <= i < |facets| ==> facets[i].name in m
  {
    if |facets| == 0 then map[]
    else NameMap(facets[..|facets| - 1])[facets[|facets| - 1].name := facets[|facets| - 1]]
  }

  /** The facets `orderHint` calls out, in hint order, skipping names the response lacks. */
  function Hinted(hint: seq<string>, m: map<string, Facet>): (r: seq<Facet>)
    ensures |r| <= |hint|
    ensures forall g :: g in r ==> g in m.Values
  {
    if |hint| == 0 then []
    else Hinted(hint[..|hint| - 1], m) + (if hint[|hint| - 1] in m then [m[hint[|hint| - 1]]] else [])
  }

  /** The facets whose name `orderHint` does not mention, in response order. */
  function Unhinted(hint: seq<string>, facets: seq<Facet>): (r: seq<Facet>)
    ensures |r| <= |facets|
  {
    if |facets| == 0 then []
    else Unhinted(hint, facets[..|facets| - 1]) + (if facets[|facets| - 1].name !in hint then [facets[|facets| - 1]] else [])
  }

  /** The order in which `renderFacets` shows the response's facets. */
  function Ordered(hint: seq<string>, facets: seq<Facet>): (r: seq<Facet>)
    ensures forall g :: g in r ==> g in facets
    ensures forall i :: 0 <= i < |facets| && facets[i].name !in hint ==> facets[i] in r
  {
    UnhintedContains(hint, facets);
    Hinted(hint, NameMap(facets)) + Unhinted(hint, facets)
  }

  /** `UnhintedMembers` for every facet at once. */
  lemma UnhintedContains(hint: seq<string>, facets: seq<Facet>)
    ensures forall g :: g in Unhinted(hint, facets) <==> g in facets && g.name !in hint
  {
    forall g {
      UnhintedMembers(hint, facets, g);
    }
  }

  /** The entries for `facets` in this order, the k-th at position k + 1, contents null or not. */
  function Entries(props: Props, facets: seq<Facet>): (es: seq<FacetEntry>)
    ensures |es| == |facets|
  {
    if |facets| == 0 then []
    else
      var last := facets[|facets| - 1];
      Entries(props, facets[..|facets| - 1]) + [PushFacetToResults(last, FacetContents(props, last, |facets|))]
  }

  /** The entry at index k is facet k's, rendered at position k + 1. */
  lemma {:induction false} EntryAt(props: Props, facets: seq<Facet>, k: nat)
    requires k < |facets|
    ensures Entries(props, facets)[k] == PushFacetToResults(facets[k], FacetContents(props, facets[k], k + 1))
  {
    if k < |facets| - 1 {
      EntryAt(props, facets[..|facets| - 1], k);
    }
  }

  lemma EntriesAppend(props: Props, facets: seq<Facet>, f: Facet)
    ensures Entries(props, facets + [f]) == Entries(props, facets) + [PushFacetToResults(f, FacetContents(props, f, |facets| + 1))]
  {
    assert (facets + [f])[..|facets|] == facets;
  }

  lemma HintedStep(hint: seq<string>, n: nat, m: map<string, Facet>)
    requires n < |hint|
    ensures Hinted(hint[..n + 1], m) == Hinted(hint[..n], m) + (if hint[n] in m then [m[hint[n]]] else [])
  {
    assert hint[..n + 1][..n] == hint[..n];
  }

  lemma UnhintedStep(hint: seq<string>, facets: seq<Facet>, n: nat)
    requires n < |facets|
    ensures Unhinted(hint, facets[..n + 1]) == Unhinted(hint, facets[..n]) + (if facets[n].name !in hint then [facets[n]] else [])
  {
    assert facets[..n + 1][..n] == facets[..n];
  }

  /** `UnhintedStep` after the called-out facets. */
  lemma ListedStep(hint: seq<string>, facets: seq<Facet>, n: nat, hinted: seq<Facet>)
    requires n < |facets|
    ensures hinted + Unhinted(hint, facets[..n + 1])
         == hinted + Unhinted(hint, facets[..n]) + (if facets[n].name !in hint then [facets[n]] else [])
  {
    UnhintedStep(hint, facets, n);
    Sequences.AppendAssociates(hinted, Unhinted(hint, facets[..n]), if facets[n].name !in hint then [facets[n]] else []);
  }

  /** The `facets.forEach(facet => facetsMap.set(facet.name, facet))` loop of `renderFacets`. */
  method MapByName(facets: seq<Facet>) returns (facetsMap: map<string, Facet>)
    ensures facetsMap == NameMap(facets)
  {
    facetsMap := map[];
    for n := 0 to |facets|
      invariant facetsMap == NameMap(facets[..n])
    {
      assert facets[..n + 1][..n] == facets[..n];
      facetsMap := facetsMap[facets[n].name := facets[n]];
    }
    assert facets[..|facets|] == facets;
  }

  /** The `orderHint.forEach` loop of `renderFacets`: the called-out facets, from position 1. */
  method RenderHinted(props: Props, facetsMap: map<string, Facet>) returns (entries: seq<FacetEntry>)
    ensures entries == Entries(props, Hinted(props.orderHint, facetsMap))
  {
    var hint := props.orderHint;
    entries := [];
    ghost var listed: seq<Facet> := [];
    var i := 0;
    for n := 0 to |hint|
      invariant listed == Hinted(hint[..n], facetsMap)
      invariant entries == Entries(props, listed) && i == |listed|
    {
      HintedStep(hint, n, facetsMap);
      if hint[n] in facetsMap {
        var facet := facetsMap[hint[n]];
        i := i + 1;
        var facetContents, _ := FindFacetContents(props, facet, i);
        EntriesAppend(props, listed, facet);
        entries := entries + [PushFacetToResults(facet, facetContents)];
        listed := listed + [facet];
      }
    }
    assert hint[..|hint|] == hint;
  }

  /**
   * The `facets.forEach` loop of `renderFacets`: the facets the hint does not name,
   * numbered on from the called-out ones.
   */
  method RenderUnhinted(props: Props, facets: seq<Facet>, hintedEntries: seq<FacetEntry>, ghost hinted: seq<Facet>)
    returns (entries: seq<FacetEntry>)
    requires hintedEntries == Entries(props, hinted)
    ensures entries == Entries(props, hinted + Unhinted(props.orderHint, facets))
  {
    var hint := props.orderHint;
    entries := hintedEntries;
    ghost var listed := hinted;
    var i := |entries|;
    assert hinted + Unhinted(hint, facets[..0]) == listed;
    for n := 0 to |facets|
      invariant listed == hinted + Unhinted(hint, facets[..n])
      invariant entries == Entries(props, listed) && i == |listed|
    {
      var facet := facets[n];
      ListedStep(hint, facets, n, hinted);
      if facet.name !in hint {
        i := i + 1;
        var facetContents, _ := FindFacetContents(props, facet, i);
        EntriesAppend(props, listed, facet);
        entries := entries + [PushFacetToResults(facet, facetContents)];
        listed := listed + [facet];
      }
    }
    assert facets[..|facets|] == facets;
  }

  /**
   * `renderFacets`: `None` (null) without a response or without facets; otherwise one
   * entry per facet in `Ordered` order, the k-th rendered at position k + 1.
   */
  method RenderFacets(props: Props, response: Option<seq<Facet>>) returns (results: Option<seq<FacetEntry>>)
    ensures results.None? <==> response.None? || |response.value| == 0
    ensures results.Some? ==> results.value == Entries(props, Ordered(props.orderHint, response.value))
  {
    var facets := if response.Some? then response.value else [];
    if |facets| == 0 {
      return None;
    }
    var facetsMap := MapByName(facets);
    var entries := RenderHinted(props, facetsMap);
    entries := RenderUnhinted(props, facets, entries, Hinted(props.orderHint, facetsMap));
    results := Some(entries);
  }

  /**
   * `renderFacets` as written: every facet it would show goes through
   * `pushFacetToResults`, which throws, so any response with a facet throws. The
   * first facet is rendered first, so a throwing `findFacetContents` comes first.
   */
  function RenderFacetsAsWritten(props: Props, response: Option<seq<Facet>>): (r: Result<Option<seq<FacetEntry>>, JsError>)
    ensures r == Ok(None) <==> response.None? || |response.value| == 0
    ensures r.Err? <==> response.Some? && |response.value| > 0
  {
    var facets := if response.Some? then response.value else [];
    if |facets| == 0 then Ok(None)
    else
      EveryFacetListed(props.orderHint, facets, 0);
      var first := Ordered(props.orderHint, facets)[0];
      match FindFacetContentsAsWritten(props, first, 1)
      case Err(e) => Err(e)
      case Ok(contents) =>
        match PushFacetToResultsAsWritten(first, contents)
        case Err(e) => Err(e)
        case Ok(entry) => assert false; Ok(Some([entry]))
  }

  /** A response with one empty facet and no contents: line 351 is not reached, line 364 throws. */
  lemma EmptyFacetRenderThrows()
    ensures RenderFacetsAsWritten(Props(NoLists, [], false, []), Some([Facet("f", "f", "", [])]))
         == Err(ReferenceError("facetContents"))
  {
    var facets := [Facet("f", "f", "", [])];
    assert Unhinted([], facets) == facets by {
      assert facets[..0] == [];
    }
  }

  /** The set of keys of `NameMap` is the set of names that occur. */
  lemma NameMapKeys(facets: seq<Facet>, n: string)
    ensures n in NameMap(facets) <==> n in Names(facets)
  {
    if n in NameMap(facets) {
      var f := NameMap(facets)[n];
      var i :| 0 <= i < |facets| && facets[i] == f;
      assert Names(facets)[i] == n;
    }
  }

  /** `Map.set` keeps the last facet of each name. */
  lemma {:induction false} NameMapKeepsLast(facets: seq<Facet>, i: nat)
    requires i < |facets|
    requires forall j :: i < j < |facets| ==> facets[j].name != facets[i].name
    ensures NameMap(facets)[facets[i].name] == facets[i]
  {
    if i < |facets| - 1 {
      var init := facets[..|facets| - 1];
      NameMapKeepsLast(init, i);
    }
  }

  lemma {:induction false} HintedMembers(hint: seq<string>, m: map<string, Facet>, g: Facet)
    ensures g in Hinted(hint, m) <==> exists h :: h in hint && h in m && m[h] == g
  {
    if |hint| > 0 {
      var init := hint[..|hint| - 1];
      HintedMembers(init, m, g);
      assert forall h :: h in hint <==> h in init || h == hint[|hint| - 1];
    }
  }

  lemma {:induction false} UnhintedMembers(hint: seq<string>, facets: seq<Facet>, g: Facet)
    ensures g in Unhinted(hint, facets) <==> g in facets && g.name !in hint
  {
    if |facets| > 0 {
      var init := facets[..|facets| - 1];
      UnhintedMembers(hint, init, g);
      assert facets == init + [facets[|facets| - 1]];
    }
  }

  /**
   * Every facet the hint does not name is in the order. For a name the hint gives, only
   * the response's last facet of that name is; earlier namesakes are dropped
   * (EarlierNamesakeDropped).
   */
  lemma EveryFacetListed(hint: seq<string>, facets: seq<Facet>, i: nat)
    requires i < |facets|
    ensures facets[i].name !in hint ==> facets[i] in Ordered(hint, facets)
    ensures facets[i].name in hint ==> NameMap(facets)[facets[i].name] in Ordered(hint, facets)
  {
    var m := NameMap(facets);
    UnhintedMembers(hint, facets, facets[i]);
    HintedMembers(hint, m, m[facets[i].name]);
  }

  /**
   * A facet whose name the hint gives, but which a later namesake replaced in
   * `facetsMap`, is in neither loop's output: the hint loop finds only the later
   * facet, and the second loop skips every hinted name.
   */
  lemma EarlierNamesakeDropped(hint: seq<string>, facets: seq<Facet>, i: nat)
    requires i < |facets| && facets[i].name in hint
    requires NameMap(facets)[facets[i].name] != facets[i]
    ensures facets[i] !in Ordered(hint, facets)
  {
    var m := NameMap(facets);
    HintedMembers(hint, m, facets[i]);
    UnhintedMembers(hint, facets, facets[i]);
  }

  /**
   * A facet `shouldShow` rejects is not hidden: it still gets its entry, with null
   * contents, since `renderFacets` pushes every facet of the order.
   */
  lemma EmptyFacetKeepsEntry(props: Props, facets: seq<Facet>, i: nat)
    requires i < |facets| && facets[i].name !in props.orderHint && !ShouldShow(props, facets[i])
    ensures exists k :: 0 <= k < |Ordered(props.orderHint, facets)|
                     && Entries(props, Ordered(props.orderHint, facets))[k] == PushFacetToResults(facets[i], None)
  {
    var o := Ordered(props.orderHint, facets);
    var k :| 0 <= k < |o| && o[k] == facets[i];
    EntryAt(props, o, k);
  }

  /** The hint's names that occur in the response, in hint order. */
  function PresentHints(hint: seq<string>, facets: seq<Facet>): seq<string> {
    if |hint| == 0 then []
    else PresentHints(hint[..|hint| - 1], facets) + (if hint[|hint| - 1] in Names(facets) then [hint[|hint| - 1]] else [])
  }

  /** The called-out facets come in hint order, one per hint name the response has. */
  lemma {:induction false} HintedFollowsHint(hint: seq<string>, facets: seq<Facet>)
    ensures Names(Hinted(hint, NameMap(facets))) == PresentHints(hint, facets)
  {
    if |hint| > 0 {
      var m := NameMap(facets);
      var init, h := hint[..|hint| - 1], hint[|hint| - 1];
      var extra := if h in m then [m[h]] else [];
      HintedFollowsHint(init, facets);
      NameMapKeys(facets, h);
      NamesAppend(Hinted(init, m), extra);
      assert Names(extra) == if h in Names(facets) then [h] else [];
    }
  }

  lemma NamesAppend(a: seq<Facet>, b: seq<Facet>)
    ensures Names(a + b) == Names(a) + Names(b)
  {
  }

  /** Every facet listed before the first one the hint does not name is one it names. */
  lemma CalledOutFirst(hint: seq<string>, facets: seq<Facet>)
    ensures var o := Ordered(hint, facets); var k := |Hinted(hint, NameMap(facets))|;
      && (forall j :: 0 <= j < k ==> o[j].name in hint)
      && (forall j :: k <= j < |o| ==> o[j].name !in hint)
  {
    var m := NameMap(facets);
    var o := Ordered(hint, facets);
    var k := |Hinted(hint, m)|;
    forall j | 0 <= j < k ensures o[j].name in hint {
      HintedMembers(hint, m, o[j]);
    }
    forall j | k <= j < |o| ensures o[j].name !in hint {
      UnhintedMembers(hint, facets, o[j]);
    }
  }

  /** The response facets the hint names, in response order. */
  function CalledOut(hint: seq<string>, facets: seq<Facet>): seq<Facet> {
    if |facets| == 0 then []
    else CalledOut(hint, facets[..|facets| - 1]) + (if facets[|facets| - 1].name in hint then [facets[|facets| - 1]] else [])
  }

  lemma {:induction false} SplitByHint(hint: seq<string>, facets: seq<Facet>)
    ensures multiset(facets) == multiset(CalledOut(hint, facets)) + multiset(Unhinted(hint, facets))
  {
    if |facets| > 0 {
      SplitByHint(hint, facets[..|facets| - 1]);
      SplitStep(hint, facets);
    }
  }

  /** One step of `SplitByHint`: the last facet goes to exactly one side. */
  lemma SplitStep(hint: seq<string>, facets: seq<Facet>)
    requires |facets| > 0
    requires var init := facets[..|facets| - 1];
      multiset(init) == multiset(CalledOut(hint, init)) + multiset(Unhinted(hint, init))
    ensures multiset(facets) == multiset(CalledOut(hint, facets)) + multiset(Unhinted(hint, facets))
  {
    var init, last := facets[..|facets| - 1], facets[|facets| - 1];
    var c, u := CalledOut(hint, init), Unhinted(hint, init);
    assert facets == init + [last];
    assert multiset(facets) == multiset(init) + multiset{last};
    if last.name in hint {
      assert CalledOut(hint, facets) == c + [last];
      assert multiset(c + [last]) == multiset(c) + multiset{last};
      assert Unhinted(hint, facets) == u;
    } else {
      assert CalledOut(hint, facets) == c;
      assert Unhinted(hint, facets) == u + [last];
      assert multiset(u + [last]) == multiset(u) + multiset{last};
    }
  }

  lemma {:induction false} CalledOutMembers(hint: seq<string>, facets: seq<Facet>, g: Facet)
    ensures g in CalledOut(hint, facets) <==> g in facets && g.name in hint
  {
    if |facets| > 0 {
      var init := facets[..|facets| - 1];
      CalledOutMembers(hint, init, g);
      assert facets == init + [facets[|facets| - 1]];
    }
  }

  lemma {:induction false} CalledOutDistinct(hint: seq<string>, facets: seq<Facet>)
    requires Sequences.Distinct(facets)
    ensures Sequences.Distinct(CalledOut(hint, facets))
  {
    if |facets| > 0 {
      var init := facets[..|facets| - 1];
      var last := facets[|facets| - 1];
      CalledOutDistinct(hint, init);
      CalledOutMembers(hint, init, last);
    }
  }

  lemma {:induction false} HintedDistinct(hint: seq<string>, m: map<string, Facet>)
    requires Sequences.Distinct(hint)
    requires forall n :: n in m ==> m[n].name == n
    ensures Sequences.Distinct(Hinted(hint, m))
  {
    if |hint| > 0 {
      var init := hint[..|hint| - 1];
      var h := hint[|hint| - 1];
      HintedDistinct(init, m);
      if h in m {
        HintedMembers(init, m, m[h]);
      }
    }
  }

  /**
   * With unique facet names and a hint without repeats, every response facet is
   * listed exactly once.
   */
  lemma EachFacetOnce(hint: seq<string>, facets: seq<Facet>)
    requires Sequences.Distinct(Names(facets)) && Sequences.Distinct(hint)
    ensures multiset(Ordered(hint, facets)) == multiset(facets)
  {
    var m := NameMap(facets);
    assert Sequences.Distinct(facets) by {
      forall i, j | 0 <= i < j < |facets| ensures facets[i] != facets[j] {
        assert Names(facets)[i] != Names(facets)[j];
      }
    }
    SplitByHint(hint, facets);
    CalledOutDistinct(hint, facets);
    HintedDistinct(hint, m);
    forall g ensures g in Hinted(hint, m) <==> g in CalledOut(hint, facets) {
      HintedMembers(hint, m, g);
      CalledOutMembers(hint, facets, g);
      if g in facets {
        var i :| 0 <= i < |facets| && facets[i] == g;
        NameMapKeepsLast(facets, i);
      }
    }
    Sequences.SameElementsPermutation(Hinted(hint, m), CalledOut(hint, facets));
  }
}
