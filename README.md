# Wizard, facet results and position utilities — a Dafny model

This project models four pieces of a React search-UI library.

- **The wizard dialog** (`src/components/Wizard.js`): a list of page definitions, the
  visible page keys, the current key and page, and the navigation between pages.
  The model covers next, previous, a direct page change and new props arriving. It
  also covers the rules for enabling the Previous, Next and Finish buttons, and which
  of them is the primary button.
- **The wizard's step list** (`src/components/WizardSteps.js`): the defaults of a
  step, and how each step becomes a current, complete, plain or disabled button.
- **Position utilities** (`src/util/PositionUtils.js`): the bounding box of a set of
  samples; the centre of zero or one sample; the degrees-minutes-seconds string of an
  angle; and the latitude/longitude string.
- **Facet results** (`src/components/FacetResults.js`): matching a field against the
  facet-type lists; choosing a facet's display type; whether a facet's contents are
  computed; finding them through the custom renderers; and the order in which
  `renderFacets` lists the facets of a response. Facets named by `orderHint` come first, in hint
  order; the others follow in response order.

Files:

- `wrappers.dfy`: `Option` and `Result`.
- `decimal.dfy`: the decimal digits that JavaScript prints for a non-negative integer, and reading them back.
- `sequences.dfy`: sequences without repeats.
- `wizard_steps.dfy`, `wizard.dfy`, `position_utils.dfy`, `facet_results.dfy`: one module per source file.

The wizard is a class, `Wizard.WizardComponent`. Its fields are the `pages` and
`validity` props and the `visiblePages`, `currentKey` and `currentPage` state. Its
methods keep the invariant `Valid()` and state the whole new state. The loops of the
source (`forEach`, `for`) are methods with loop invariants. Each is proved against a
specification function, and the properties are proved about that function.

JavaScript truthiness is modelled explicitly:

- the empty string is false, both as a page key and as a single facet-type list;
- `value.latitude || 0` is `OrZero`;
- a renderer result that is falsy is `None`.

`Math.round(x)` is `Floor(x + 0.5)` over exact reals.

## Model

| member | source | states |
|---|---|---|
| Wizard.Keys | src/components/Wizard.js:165-168 | The visible keys are the pages' keys, one per page, in page order. |
| Wizard.NewPageDefinition | src/components/Wizard.js:73-91 | A page built with the defaults keeps its key and title and is not optional. |
| Wizard.NewPageState | src/components/Wizard.js:94-106 | A new page state keeps its key, has an empty value, is enabled and is not valid. |
| Wizard.IndexOf | src/components/Wizard.js:207-209 | `findIndex` of a key: -1 exactly when the key is absent; otherwise the key is at that index and not before it. |
| Wizard.GetPage | src/components/Wizard.js:199-204 | Undefined exactly when no page has the key. Otherwise it is the first page with that key. |
| Wizard.LastPage | src/components/Wizard.js:186-191 | The page the props loop keeps is absent exactly when no new page has the key. Otherwise it is a new page with the key, and no later new page has the key: the last assignment wins. |
| Wizard.NextPageKey | src/components/Wizard.js:206-217 | Null when the current key is not visible. Otherwise it is the key after the first occurrence of the current key, or null after the last one. |
| Wizard.PreviousPageKey | src/components/Wizard.js:219-228 | Null when the current key is not visible or is first. Otherwise it is the key before its first occurrence. |
| Wizard.CurrentPageValid | src/components/Wizard.js:230-233 | True exactly when the validity map holds `true` for the current page's key; a missing entry is invalid. |
| Wizard.AnyRequired | src/components/Wizard.js:266-268 | True exactly when some key names a page that is not optional. |
| Wizard.DoneWithRequired | src/components/Wizard.js:261-272 | True exactly when every visible page after the current key's index is optional. A key that is not visible has index -1, so every visible page counts. |
| Wizard.NavigationControls | src/components/Wizard.js:282-293 | Previous is enabled iff there is a truthy previous key. Next is enabled iff there is a truthy next key and the current page is valid. Finish is enabled iff there is no truthy next key or every later visible page is optional. Finish is primary iff it is enabled. Next is primary iff it is enabled and Finish is not. The two are never both primary. |
| Wizard.NextNeedsValidPage | src/components/Wizard.js:287-288 | An invalid current page disables Next. |
| Wizard.CanFinishOnLastPage | src/components/Wizard.js:289-291 | On the last visible page, Finish is enabled whatever the validity. |
| Wizard.CanFinishWhenNotVisible | src/components/Wizard.js:291 | When the current key is not visible there is no next key, so Finish is enabled. |
| Wizard.CanFinishBeforeEmptyKey | src/components/Wizard.js:291 | A next key of `""` is falsy, so Finish is enabled before it even though a required page follows. |
| Wizard.CanFinishWithNextPage | src/components/Wizard.js:261-272 | When the key after the current key's first occurrence is truthy (non-empty), Finish is enabled iff every later visible page is optional. |
| Wizard.ControlsIgnoreValidity | src/components/Wizard.js:285-291 | Previous and Finish do not depend on the validity map. |
| Wizard.NextThenPreviousKey | src/components/Wizard.js:206-228 | With unique visible keys and a next key, the previous key of the next key is the current key. |
| Wizard.GetPageUnique | src/components/Wizard.js:199-204 | With unique page keys, `getPage` of a page's key is that page. |
| Wizard.StepList | src/components/Wizard.js:276-280 | One step per visible key, in order. Each is titled by its page and has the default flags. |
| Wizard.WizardStepButtons | src/components/Wizard.js:276-280 | In the wizard's step list, the current step is the current-class button without a click handler. Every other step is a plain, enabled, clickable button. |
| Wizard.WizardComponent.Valid | src/components/Wizard.js:162-197 | The invariant the component keeps: one visible key per page, equal to that page's key, in order. The current page has the current key, and while that key is visible it is one of the pages. |
| Wizard.WizardComponent.constructor | src/components/Wizard.js:162-173 | Every page key is visible in order. The first page is current, and it has no previous key. |
| Wizard.WizardComponent.ReceiveProps | src/components/Wizard.js:182-197 | A different pages array recomputes the visible keys. The current page becomes the last new page with the current key, or stays when there is none. The current key never changes. The same array leaves the state as it was. |
| Wizard.WizardComponent.ChangePage | src/components/Wizard.js:243-251 | A truthy key becomes current with the first page that has it. Null or `""` changes nothing. The props and visible keys are unchanged. |
| Wizard.WizardComponent.NextPage | src/components/Wizard.js:253-255 | The state moves to the truthy next key, without a validity check. Otherwise nothing changes. |
| Wizard.WizardComponent.PreviousPage | src/components/Wizard.js:257-259 | The state moves to the truthy previous key. Otherwise nothing changes. |
| Wizard.WizardComponent.NextThenPrevious | src/components/Wizard.js:253-259 | With unique keys, a non-empty current key and a truthy next key, Next then Previous restores the current key and page. |
| Wizard.WizardComponent.Cancel | src/components/Wizard.js:235-237 | `onFinish` receives null. |
| Wizard.WizardComponent.Finish | src/components/Wizard.js:239-241 | `onFinish` receives `true`. |
| WizardSteps.NewStep | src/components/WizardSteps.js:11-21 | A new step keeps its key and title; it is enabled and not complete. |
| WizardSteps.Classify | src/components/WizardSteps.js:49-75 | The current step gets the current class, and only it does. A step is disabled iff it is neither current nor enabled, and then it has the disabled class. A step has a click handler, going to its key, iff it is not current and is enabled. Such a step has the complete class iff it is complete, and the plain class otherwise. |
| WizardSteps.Render | src/components/WizardSteps.js:46-91 | Null iff there are no steps. Otherwise there is one button per step, in order, each classified as above. |
| PositionUtils.OrZero | src/util/PositionUtils.js:15-16 | A missing coordinate counts as 0. A present one is kept. |
| PositionUtils.CalcBounds | src/util/PositionUtils.js:6-31 | No samples give the whole earth, [-180,-90] to [180,90]. Otherwise the box encloses every sample, and each of its four sides is attained by some sample. |
| PositionUtils.TightBoxIsUnique | src/util/PositionUtils.js:6-31 | At most one box encloses the samples with every side attained, so the bounds are determined. |
| PositionUtils.CalcCenter | src/util/PositionUtils.js:33-39 | No samples give (0, 0). One sample gives that sample's coordinates, a missing one counting as 0. More samples give the spherical mean. |
| PositionUtils.SingleSampleBoundsAtCenter | src/util/PositionUtils.js:6-39 | For one sample, the bounding box collapses to the centre. |
| PositionUtils.Truncated | src/util/PositionUtils.js:76-81 | Truncated degrees and minutes with rounded seconds: minutes below 60 and seconds at most 60. Together they total the absolute angle rounded to whole arc-seconds. |
| PositionUtils.Carry | src/util/PositionUtils.js:82-89 | The carries bring seconds and minutes below 60 and preserve the total arc-seconds. Seconds below 60 are left alone. |
| PositionUtils.DegreesMinutesSeconds | src/util/PositionUtils.js:75-89 | Minutes and seconds are below 60. The total is the absolute angle rounded to whole arc-seconds. |
| PositionUtils.Format | src/util/PositionUtils.js:91-94 | The string starts with the degrees' digits and the degree sign. It ends with the double prime when the seconds are non-zero, and with the prime otherwise. |
| PositionUtils.ToDegreesMinutesSeconds | src/util/PositionUtils.js:75-95 | The string is the printed form of the carried, rounded parts of the angle. |
| PositionUtils.MixedRadix | src/util/PositionUtils.js:82-89 | With minutes and seconds below 60, the value is the base-60 split of its total. |
| PositionUtils.DmsIsRoundedAngle | src/util/PositionUtils.js:75-89 | The parts are the base-60 digits of the rounded number of arc-seconds. |
| PositionUtils.DmsOfNegation | src/util/PositionUtils.js:76 | An angle and its negation have the same parts. |
| PositionUtils.ToDmsOfNegation | src/util/PositionUtils.js:75-95 | An angle and its negation print the same. |
| PositionUtils.ParseFormat | src/util/PositionUtils.js:91-94 | The printed form reads back to the same degrees, minutes and seconds, so printing is injective. |
| PositionUtils.SecondsShownIffNonZero | src/util/PositionUtils.js:91-94 | The double-prime mark appears iff seconds are non-zero. The string ends with it, or with the prime mark. |
| PositionUtils.Hemisphere | src/util/PositionUtils.js:103-120 | No letter iff the coordinate is 0. The positive letter for a positive coordinate, and the negative letter for a negative one. |
| PositionUtils.LatLongString | src/util/PositionUtils.js:102-124 | The latitude's angle and letter, a space, then the longitude's angle and letter. Neither half contains a space. |
| PositionUtils.ParseLatLongString | src/util/PositionUtils.js:102-124 | The lat/long string reads back to both coordinates' parts and signs. The sign comes from N/S and E/W, and no letter means 0. |
| PositionUtils.ParseCoordinateOf | src/util/PositionUtils.js:104-111 | One coordinate with its hemisphere letter reads back to its parts and its sign. |
| PositionUtils.ParseSignedFormat | src/util/PositionUtils.js:104-111 | A printed angle followed by the positive letter, the negative letter or none reads back to its parts and the sign 1, -1 or 0. |
| PositionUtils.FormatHasNoSpace | src/util/PositionUtils.js:91-94 | A printed angle contains no space, so the space in the lat/long string separates the two halves. |
| PositionUtils.ExampleWithoutSeconds | src/util/PositionUtils.js:99 | 39.9167 prints as 39°55′, the documented no-seconds form. |
| PositionUtils.ExampleDoubleCarry | src/util/PositionUtils.js:82-89 | 0.99999 rounds to 0°59′60″ and carries twice, to 1°0′. |
| PositionUtils.ExampleLatitude | src/util/PositionUtils.js:75-92 | 18.9753 prints as 18°58′31″. |
| PositionUtils.ExampleLongitude | src/util/PositionUtils.js:75-92 | 72.8258 prints as 72°49′33″. |
| PositionUtils.ExampleLatLong | src/util/PositionUtils.js:102-124 | (18.9753, 72.8258) prints as 18°58′31″N 72°49′33″E. |
| PositionUtils.ExampleDocumentedLatitude | src/util/PositionUtils.js:75-95 | 18.975 prints as 18°58′30″. |
| PositionUtils.ExampleDocumentedLongitude | src/util/PositionUtils.js:75-95 | 116.3833 prints as 116°23′: 59.88 seconds round to 60 and carry into the minutes. |
| PositionUtils.ExampleDocumentedLatLong | src/util/PositionUtils.js:97-101 | The two forms of the doc comment: (18.975, 72.8258) prints as 18°58′30″N 72°49′33″E and (39.9167, 116.3833) as 39°55′N 116°23′E. |
| PositionUtils.ExampleOrigin | src/util/PositionUtils.js:104-121 | (0, 0) prints without hemisphere letters. |
| PositionUtils.Find | src/util/PositionUtils.js:123 | The first position of a character, or the length when it is absent. |
| Decimal.NatToString | src/util/PositionUtils.js:92-94 | The decimal digits of a non-negative integer, without a leading zero. |
| Decimal.ParseNat | src/util/PositionUtils.js:92-94 | Defined exactly on non-empty digit strings. |
| Decimal.ValueOfNatToString | src/util/PositionUtils.js:92-94 | The digits printed for n have value n. |
| Decimal.ParseNatToString | src/util/PositionUtils.js:92-94 | Printed digits read back to the same number. |
| FacetResults.MatchesFacetList | src/components/FacetResults.js:131-139 | Null and `""` never match. Any other string matches by equality, and an array by membership. |
| FacetResults.GetFacetDisplayType | src/components/FacetResults.js:302-329 | The type chosen is one whose list matches, or `List`. No type tried earlier matches. |
| FacetResults.DisplayTypeIsUnique | src/components/FacetResults.js:302-329 | Only one type meets that contract. |
| FacetResults.ShouldShow | src/components/FacetResults.js:331-336 | A facet's contents are rendered iff `showEmptyFacets` is set or the facet has buckets. Its entry is pushed either way. |
| FacetResults.FirstRenderer | src/components/FacetResults.js:343-349 | Every renderer before the chosen one gives a falsy result, and the chosen one gives a truthy result. It is the count of renderers when none does. |
| FacetResults.FirstRendererIs | src/components/FacetResults.js:343-349 | Only one index has every earlier renderer falsy and itself truthy, or is the count with all falsy. |
| FacetResults.FacetContents | src/components/FacetResults.js:338-355 | Null contents iff `ShouldShow` rejects the facet. Otherwise it is the first truthy renderer result, or, only when every renderer is falsy, the built-in type. |
| FacetResults.FindFacetContents | src/components/FacetResults.js:338-355 | The loop computes `FacetContents`. It calls no renderer for a facet `ShouldShow` rejects, and none after the first truthy one. |
| FacetResults.FindFacetContentsAsWritten | src/components/FacetResults.js:350-352 | As written, it throws exactly when the built-in fallback is reached. It agrees with `FacetContents` otherwise. |
| FacetResults.BuiltInFallbackThrows | src/components/FacetResults.js:350-352 | With no renderers, a facet with a bucket throws. |
| FacetResults.PushFacetToResults | src/components/FacetResults.js:357-368 | The entry carries the facet's field and the contents. Its name is the display name, or the name when the display name is empty. |
| FacetResults.PushFacetToResultsAsWritten | src/components/FacetResults.js:364 | As written, it always throws on the undefined `facetContents`. |
| FacetResults.NameMap | src/components/FacetResults.js:374-377 | Every response name is a key, and every key maps to a response facet of that name. |
| FacetResults.NameMapKeys | src/components/FacetResults.js:374-377 | The keys are exactly the response's names. |
| FacetResults.NameMapKeepsLast | src/components/FacetResults.js:374-377 | A facet with no later namesake is the one kept for its name. |
| FacetResults.MapByName | src/components/FacetResults.js:374-377 | The loop builds `NameMap`. |
| FacetResults.Hinted | src/components/FacetResults.js:380-387 | At most one called-out facet per hint name, each one a value of the name map. |
| FacetResults.Unhinted | src/components/FacetResults.js:388-394 | No longer than the response. |
| FacetResults.UnhintedContains | src/components/FacetResults.js:388-394 | A facet is in `Unhinted` iff it is in the response and the hint does not name it. |
| FacetResults.Ordered | src/components/FacetResults.js:378-394 | Every facet in the order is a response facet. Every response facet the hint does not name is in it. |
| FacetResults.Entries | src/components/FacetResults.js:378-394 | One entry per facet in the order, including facets whose contents are null, so `results` is as long as the order. |
| FacetResults.RenderHinted | src/components/FacetResults.js:378-387 | The hint loop renders the called-out facets in hint order, numbered from 1. |
| FacetResults.RenderUnhinted | src/components/FacetResults.js:388-394 | The second loop appends the facets the hint does not name, in response order, numbered on. |
| FacetResults.EntryAt | src/components/FacetResults.js:379-393 | In the rendered entries, entry k belongs to facet k and is rendered with index k + 1. |
| FacetResults.RenderFacets | src/components/FacetResults.js:370-398 | Null iff there is no response or it has no facets. Otherwise there is one entry per facet, in `Ordered` order, the k-th rendered at index k. |
| FacetResults.HintedMembers | src/components/FacetResults.js:380-387 | A facet is called out iff some hint name maps to it. |
| FacetResults.UnhintedMembers | src/components/FacetResults.js:388-394 | A facet follows the called-out ones iff it is in the response and the hint does not name it. |
| FacetResults.EveryFacetListed | src/components/FacetResults.js:370-398 | Every facet the hint does not name appears in the order. For a name the hint gives, the last facet with that name appears. |
| FacetResults.EmptyFacetKeepsEntry | src/components/FacetResults.js:378-394 | A facet the hint does not name that `ShouldShow` rejects still gets an entry, with null contents. |
| FacetResults.EarlierNamesakeDropped | src/components/FacetResults.js:374-394 | A facet whose name the hint gives is dropped when a later facet has the same name: `facetsMap` keeps only the later one, and the second loop skips hinted names. |
| FacetResults.HintedFollowsHint | src/components/FacetResults.js:380-387 | The called-out names are the hint's names that the response has, in hint order. |
| FacetResults.CalledOutFirst | src/components/FacetResults.js:378-394 | Every facet the hint names comes before every facet it does not. |
| FacetResults.EachFacetOnce | src/components/FacetResults.js:370-398 | With unique names and a hint without repeats, the order is a permutation of the response. |
| FacetResults.RenderFacetsAsWritten | src/components/FacetResults.js:370-398 | As written, the result is null iff there are no facets. Any non-empty response throws. |
| FacetResults.EmptyFacetRenderThrows | src/components/FacetResults.js:364 | A response with one empty facet, whose contents are null, throws on `facetContents`, without reaching line 351. |

## Left out

- JSX rendering: the modal, the buttons' markup, styles, sizes, titles and page elements. The model keeps only the values that the rendering decisions produce.
- The page callbacks `getValue`, `validate` and `aboutToShow`, the page `value` objects past their `{}` default, and `WizardPageDefinition.pageTitle`/`page`. Navigation does not read them.
- The `goToPage` callback: the wizard passes a no-op, so a step's click handler is modelled as the key it would go to.
- `Wizard.render` returning null when `show` is false. The step list and controls are modelled as what it computes when shown.
- Wizard.WizardComponent.Valid: assumes the parent never changes the `pages` array in place. `componentWillReceiveProps` compares `pages` by reference (src/components/Wizard.js:183), so if the same array were edited and passed again, the source would keep stale visible keys, and `getPage(key)` for such a key could return undefined, so reading its `title` (lines 278-279) would throw. The model cannot represent that call sequence: every method requires `Valid()`, which ties the visible keys to the array's current contents.
- Wizard.WizardComponent.constructor: requires at least one page. The source reads `pages[0].key` and throws a TypeError on an empty array.
- Wizard.WizardComponent.ChangePage: requires a truthy key to be a page key. The source would otherwise store `undefined` as the current page, which the model has no value for. Null and `""` are allowed and change nothing.
- Wizard.DoneWithRequired: requires every visible key to name a page, because the source dereferences `getPage(key).optional`. This always holds for the component's own state.
- Wizard.WizardComponent.NextThenPrevious: stated only for unique keys, a non-empty current key and a truthy next key. With duplicates, `findIndex` finds the first occurrence, and an empty previous key is falsy. Without a truthy next key, Next does nothing, so Previous moves back from the current page instead of restoring it.
- PositionUtils.CalcCenter: the spherical mean of two or more samples (trigonometry in IEEE floating point) is a function parameter `sphericalMean`. Only the zero- and one-sample cases are modelled exactly.
- PositionUtils.DegreesMinutesSeconds: computed over exact reals. Floating-point error in `minutesFraction * 60` and in rounding, NaN and infinities are not modelled.
- PositionUtils.OrZero: only an absent coordinate stands for a falsy one. NaN is not modelled, and a literal 0 gives the same result either way.
- Decimal.NatToString: models `Number.prototype.toString` only for non-negative integers below 10^21. From 10^21 up JavaScript prints exponent form (`toDegreesMinutesSeconds(1e21)` gives `1e+21°0′`), while the model prints every digit.
- FacetResults: `renderBuiltInFacetType` is not part of this model. Its result is the opaque `BuiltIn(facet, type)`.
- FacetResults: `addFacetFilter`, `addTimeSeriesFilter`, `maxFacetBuckets`, `entityColors` and the searcher context are left out. The response's facet list is a parameter.
- FacetResults.FindLabel: `SearchFacet.findLabel` is not part of this model. It is modelled as the display name when non-empty, else the name, following the comment at line 358.
- FacetResults.Unhinted: its own contract gives only the length bound. Which facets it holds is stated separately, by FacetResults.UnhintedContains and FacetResults.UnhintedMembers, so that proofs which unfold it stay small.
- FacetResults.Entries: its own contract gives only the length. What each entry is is stated by FacetResults.EntryAt.
- FacetResults: a facet's missing `buckets` is modelled as an empty list. `facetsMap.get` always finds a facet object, which is truthy.
- `src/components/Facet.js` and `src/api/FacetFilter.js` are not modelled: they render or build filters and do not take part in the ordering or the dispatch.
- `finish` passes `true` (src/components/Wizard.js:239-241), although the `onFinish` comment at lines 119-123 promises a map from each page key to its value. The model follows the code.
- `nextPage` does not check validity (src/components/Wizard.js:253-255). Only the Next button's enabling does (line 288).
- Empty facets are not hidden. The `showEmptyFacets` comment (src/components/FacetResults.js:67-70) says that by default facets with no buckets are hidden, but `renderFacets` pushes an entry for every facet (lines 384-385, 391-392), and `shouldShow` only makes its contents null. The model follows the code.
- `canFinish` does not check validity (src/components/Wizard.js:291), although the comment at lines 289-290 says the current page must be valid. The model follows the code.

## Findings

| source | as written | input that shows it | evidently intended | confidence | as-written member | corrected member |
|---|---|---|---|---|---|---|
| src/components/FacetResults.js:351 | calls `renderBuiltInFacetType(facet, type)` without `this.`, and no such binding is in scope | default props (no renderers), one facet with a bucket | the built-in rendering of the facet for its display type | not executed | FacetResults.FindFacetContentsAsWritten, FacetResults.BuiltInFallbackThrows | FacetResults.FindFacetContents, FacetResults.FacetContents |
| src/components/FacetResults.js:364 | passes `facetContents`, a name not in scope, instead of the `contents` parameter | any response with at least one facet, e.g. one empty facet with `showEmptyFacets` false | the entry carries the contents just found | not executed | FacetResults.PushFacetToResultsAsWritten, FacetResults.RenderFacetsAsWritten, FacetResults.EmptyFacetRenderThrows | FacetResults.PushFacetToResults, FacetResults.RenderFacets |
