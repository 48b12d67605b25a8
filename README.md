# Party overview toolbox: a verified model

This project models the decision rules of the "Minaxam's toolbox" party overview window, an add-on for a virtual tabletop. The window lists the members of a party actor, draws a hit-point bar of one segment per point of maximum HP for each member, and lets the game master change HP by clicking a segment or an HP button. It registers itself with the party and its members while it is open. It carries the open or closed state of each member's accordion from one render to the next. The add-on's entry point also converts an imported module namespace into a plain object, dropping the default export.

Modules:

- `Wrappers`: `Option` (JavaScript's `undefined`) and `Result`.
- `Seqs`: `FirstIndex`, the first occurrence of a value in a sequence, and `Distinct`.
- `HitPoints`: the segment bar (`BarSegments`), the segment-click rule (`ToggledHp`) and the HP-button rule (`SetHp`), with lemmas about each.
- `Toolbox`: the host objects the window changes in place. These are the member `Actor`s (id, `hp`, the `apps` registry, the stored `barSegments`), the `Party` (its `apps` and `creatures`) and a rendered `PartElement` (its accordions' actor ids and closed flags). The window itself is the class `MinaxamsToolbox`: its first render and close, the per-render preparation of the bars, the accordion carry-over, the actor lookup and the two HP handlers.
- `Utils`: `JsObject`, a plain object given as its keys in insertion order plus a value map, and `ModuleToObject`, proved against the specification function `ToObject`.

The rules, in the model's terms:

- A member's bar is stored only when its `effectiveMax` is truthy, meaning present and not 0. It has `max(effectiveMax, 0)` segments, because `Array.from` converts the `length` of its array-like argument with ToLength, which turns a negative length into 0. Segment `i` is filled exactly when `i < value`. So the bar is a run of `min(max(value, 0), length)` filled segments followed by empty ones. A member without a truthy maximum keeps the bar an earlier render stored on it. The other members are still processed.
- A click on segment `index` asks for HP `hp - 1` when `index + 1 == hp`, and `index + 1` otherwise. Clicking the same segment twice does not in general restore the HP. It restores it exactly when `hp` was `index` or `index + 1`. From 5 HP, two clicks on segment 2 leave 2 HP (`ToggleTwiceDoesNotRestore`). The rule is a "fill up to here, or empty the last filled segment" click, and `ToggledBar` states the bar it produces.
- An HP button adds its value in mode `"add"` and sets it otherwise. Nothing clamps.
- Both handlers fail (`ActorNotFound`) when no creature has the clicked actor id. The source then dereferences `undefined` and throws.

## Model

| member | source | states |
|---|---|---|
| HitPoints.BarSegments | module/applications/minaxams-toolbox.mjs:131 | the model of the `Array.from` expression: the bar has one segment per point of non-negative maximum and no filled segment follows an empty one; BarSegmentsShape, FilledPrefix and FilledCount state the rest |
| HitPoints.HasBar | module/applications/minaxams-toolbox.mjs:130 | the model of `!effectiveMax`: a bar is drawn exactly when the maximum is present and not 0; PreparePartyPartContext states its use |
| HitPoints.BarSegmentsShape | module/applications/minaxams-toolbox.mjs:131 | segment i is filled exactly when i < value |
| HitPoints.FilledPrefix | module/applications/minaxams-toolbox.mjs:131 | the bar equals a run of min(max(value,0), length) filled segments followed by the remaining empty segments |
| HitPoints.FilledCount | module/applications/minaxams-toolbox.mjs:131 | the number of filled segments is value clamped into [0, length] |
| Toolbox.MinaxamsToolbox.PreparePartyPartContext | module/applications/minaxams-toolbox.mjs:127-134 | every member with a truthy effectiveMax gets the bar for its (max, value); every other member keeps its old bar; hp and apps are unchanged |
| Toolbox.MinaxamsToolbox.PreparePartContext | module/applications/minaxams-toolbox.mjs:113-125 | only the "party" part draws the bars of the party's creatures; any other part changes no member |
| HitPoints.ToggledHp | module/applications/minaxams-toolbox.mjs:173 | the model of the toggle expression: every click changes the HP, and the new HP is index or index + 1; ToggledBar and the ToggleTwice lemmas state the rest |
| HitPoints.ToggledBar | module/applications/minaxams-toolbox.mjs:168-174 | after a click on segment index, segments before it are filled, segments after it are empty, and it is filled unless it was the last filled one |
| HitPoints.ToggledSegmentFlips | module/applications/minaxams-toolbox.mjs:168-174 | the clicked segment changes state exactly when hp <= index + 1 |
| HitPoints.ToggleTwice | module/applications/minaxams-toolbox.mjs:173 | two clicks on the same segment end on hp if hp == index + 1, and on index otherwise |
| HitPoints.ToggleTwiceRestores | module/applications/minaxams-toolbox.mjs:173 | two clicks restore the HP if and only if hp is index or index + 1 |
| HitPoints.ToggleTwiceDoesNotRestore | module/applications/minaxams-toolbox.mjs:173 | from 5 HP two clicks on segment 2 leave 2 HP |
| HitPoints.SetHp | module/applications/minaxams-toolbox.mjs:189-191 | the model of the add-or-set expression; SetHpAddUndone, SetHpIdempotent and SetHpUnclamped state its properties |
| HitPoints.SetHpAddUndone | module/applications/minaxams-toolbox.mjs:183-192 | a press of an add button of value v is undone by a press of an add button of value -v |
| HitPoints.SetHpIdempotent | module/applications/minaxams-toolbox.mjs:183-192 | pressing the same button twice equals pressing it once if and only if it is a set button or adds 0 |
| HitPoints.SetHpUnclamped | module/applications/minaxams-toolbox.mjs:188-192 | an addition can go below 0 and a set can go above the maximum |
| Seqs.FirstIndex | module/applications/minaxams-toolbox.mjs:145 | the result is an index holding the value with no earlier occurrence, or none exactly when the value does not occur |
| Toolbox.FindById | module/applications/minaxams-toolbox.mjs:144-146 | the result is the first creature with the id, or none exactly when no creature has it |
| Toolbox.MinaxamsToolbox.GetActorById | module/applications/minaxams-toolbox.mjs:144-146 | the first of the party's creatures with the id, or none exactly when none has it |
| Toolbox.MinaxamsToolbox.OnToggleSegment | module/applications/minaxams-toolbox.mjs:167-175 | fails exactly when no creature has the actor id; otherwise asks to set the HP of the first creature with that id (the one `getActorById` returns) to the toggle rule's value |
| Toolbox.MinaxamsToolbox.OnSetHp | module/applications/minaxams-toolbox.mjs:182-193 | fails exactly when no creature has the actor id; otherwise asks to set the HP of the first creature with that id (the one `getActorById` returns) to the add-or-set rule's value |
| Toolbox.MinaxamsToolbox.constructor | module/applications/minaxams-toolbox.mjs:11-18 | the window keeps the party it is given and has the id "minaxams-toolbox" |
| Toolbox.MinaxamsToolbox.OnFirstRender | module/applications/minaxams-toolbox.mjs:71-77 | the party's and every creature's apps map the window id to this window; every other key, the hp and the bars are unchanged |
| Toolbox.MinaxamsToolbox.OnClose | module/applications/minaxams-toolbox.mjs:95-101 | the window id is absent from the party's and every creature's apps; every other key, the hp and the bars are unchanged |
| Toolbox.RenderThenClose | module/applications/minaxams-toolbox.mjs:71-101 | a first render followed by a close leaves every registry as it was when none held the window id |
| Toolbox.LastState | module/applications/minaxams-toolbox.mjs:83-88 | the closed flag of the last prior accordion of an actor, or none exactly when it has none |
| Toolbox.MinaxamsToolbox.PreSyncPartState | module/applications/minaxams-toolbox.mjs:80-90 | the first new accordion of each actor takes the closed flag of that actor's last prior accordion; every other new accordion keeps its flag |
| Toolbox.CarriedStateDistinct | module/applications/minaxams-toolbox.mjs:83-89 | with one accordion per actor in each render, an actor in both renders gets its prior closed state |
| Toolbox.CarriedStateNew | module/applications/minaxams-toolbox.mjs:86-88 | an actor with no prior accordion keeps the state of its new one |
| Toolbox.MinaxamsToolbox.OnToggleAccordion | module/applications/minaxams-toolbox.mjs:157-160 | the clicked accordion's closed flag flips and no other flag changes |
| Utils.JsObject.Entries | module/utils.mjs:11 | one pair per key, in key order; no key occurs twice; the keys are exactly those of the object, each paired with its value |
| Utils.JsObject.Put | module/utils.mjs:13 | assignment keeps the object well formed, maps the key to the value (for any key but `__proto__`, see below), appends a new key and keeps an existing key in place |
| Utils.ToObject | module/utils.mjs:9-15 | the result is a well-formed object whose keys are the input's keys, less "default" unless it is kept, each mapping to its input value |
| Utils.ModuleToObject | module/utils.mjs:9-16 | the loop builds exactly the object ToObject describes |
| Utils.KeptKeysElements | module/utils.mjs:11-12 | a key is kept if and only if it is an input key that is not the skipped "default" |
| Utils.KeptKeysRemovesDefault | module/utils.mjs:11-13 | dropping "default" removes that one key and leaves the other keys in their input order |
| Utils.KeptKeysNoDefault | module/utils.mjs:11-12 | without a "default" key every key is kept in order |
| Utils.KeptKeysIncludeAll | module/utils.mjs:12 | with includeDefault every key is kept in order |
| Utils.ToObjectIncludeAll | module/utils.mjs:9-15 | with includeDefault the result is the input object itself |
| Utils.ToObjectIdempotent | module/utils.mjs:12 | converting the result once more (dropping "default") gives the same object |

Objects are values in the `Utils` model. So the result is automatically a new object, and the namespace passed in is not modified.

## Left out

- The host writes (`actor.update`), asynchronous rendering, templates, tabs, the `super` calls and the window options other than the id. The handlers return the update they would send (`HpUpdate`) and do not perform it.
- String-to-number coercion of dataset values (`+dataset.index`, `Number(...)`) and its NaN cases. Indices, HP values and button values are integers.
- JavaScript numbers are doubles, so HP arithmetic loses precision past 2^53. The model's integers are unbounded.
- Non-integer or NaN HP values and maxima. A maximum larger than the largest array length makes the array constructor throw a RangeError, and the model does not capture it.
- DOM mechanics. `closest` and the click target are replaced by the index of the clicked accordion. `querySelector` is replaced by the first accordion with the same actor id. An actor id that is not valid inside a CSS attribute selector is not modelled.
- The HP button handler's null `target.closest("[data-actor-id]")` result, which throws in the source. `OnSetHp` takes the actor id directly.
- The accordion toggle's null `closest` result, which throws in the source. `OnToggleAccordion` requires the target to be inside an accordion.
- `_prepareContext` only sets `context.members` to the party's creatures. `PreparePartContext` passes the creatures directly.
- The window is built with its party. The actor-directory hook (module/hooks/render-actor-directory.mjs:24) constructs it with no options, so as written `this.party` would be undefined there and `_prepareContext` and `_onFirstRender` (module/applications/minaxams-toolbox.mjs:73, 108) would throw. This observation was not executed; the hook is not part of this model.
- Utils.ModuleToObject: takes `includeDefault` as a boolean. The default value `false` and the truthiness test the source applies to a non-boolean argument are not modelled.
- Utils.JsObject.Put: does not model the key `"__proto__"`. Assigning it to a fresh object calls the prototype setter and creates no own key, while the model (and `ToObject`) keeps it as an ordinary key.
- Property order of real JavaScript objects puts integer-like keys first. The `Utils` model keeps plain insertion order, which is what export names give.
- The spell list window, the hooks and the entry-point wiring, which have no logic of their own beyond host calls.
