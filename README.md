# core-element binding engine, in Dafny

This project models the binding engine of the `CoreElement` base class of
core-element (`src/core-element.js`), and proves properties of the model:

- **Parsing `bind` declarations.** `__parseTemplateBindings` reads every
  `bind="prop: path; prop: path"` declaration in a rendered subtree. It builds the
  binding index `__stateBindingsMap`, a map from path to a list of
  `{element, propName}`.
- **The `state` setter.** It resolves each path in the index against the new
  state and stores the value into every binding. A defined property is assigned;
  otherwise the attribute is set. Then the `onStateUpdated` hook runs once.
- **Writes at one path.** `setStateProperty` writes only the bindings of its path,
  then stores the value into the state tree. Its debounced form,
  `setStatePropertyLater`, keeps one pending timer per instance.
- **Static registration.** The `styles`, `template`, `is` and `bindable` setters.
- **The cross-component channel.** The bind logic of `connectedCallback`, its
  handler, `disconnectedCallback` and `notify`.
- **Small helpers.** The callback name of `notify`, `attributeChangedCallback` and
  `attr`.

The browser is made explicit:

- A rendered element is a `Dom.Element` with a property map, an attribute map and
  a count of the stores it received.
- The state is a `JsValues.Value` tree.
- `window` is `Core.Window`. It holds the timer queue, where callbacks run in
  scheduling order and `Core.Tick` is one turn of the event loop. It also holds the
  event listeners of each channel, the log of dispatched events, and
  `customElements`.
- The TypeErrors the code can throw are `Fault` values. Every operation returns an
  `Outcome` or a `Result`.

Modules, in dependency order:

- `JsValues`: values, property reads, truthiness, string coercion.
- `Text`: `split`, `trim`, the callback name.
- `Dom`: elements.
- `StatePath`: resolving and storing along a dotted path.
- `Bindings`: the index and the parser's reference function.
- `Reconcile`: stores into elements, and the loops of the two setters.
- `Timers`: the timer queue.
- `Bus`: the receive rule of the channel.
- `Core`: the window, the registry, the class and its instance.
- `Scenario`: concrete runs, taken from the example application and from the
  debounce and channel behaviour.

Each loop of the source is a `while` loop proved against a function:

- The nested `forEach` of the parser: `Core.CoreElement.AddDeclarations` and
  `Core.CoreElement.AddDeclaration`, against `Bindings.Parse`.
- The loops of the `state` setter: `Reconcile.WriteAll` and `Reconcile.WriteKey`,
  against `Reconcile.FullPlan` and `Reconcile.After`. The pass
  (`Reconcile.Reconciliation`) is defined over what each key's path resolves to,
  one resolution per key in enumeration order, so its lemmas hold for any such
  resolutions. `Reconcile.FullPlan` supplies those of the new state
  (`Reconcile.ResolveAll`).
- The `forEach` of `setStateProperty`: `Reconcile.WriteTargeted`.
- The path walks: `StatePath.ResolveWalk` and `Core.CoreElement.StoreAtPath`.
- Event dispatch: `Core.Window.CallListeners`, against `Bus.Received` and
  `Bus.Receivers`.

Behaviour of the code that is easy to misread, as the model follows it:

- The scan for declarations covers the descendants of the root only
  (`querySelectorAll`), not the root itself.
- Parsing appends to the existing index. It never replaces it.
- A piece without `:` throws. That ends the whole parse, and the pieces added
  before it stay. An empty declaration `bind=""` is such a piece, so it throws too
  instead of doing nothing. A piece whose path or property is empty after
  trimming is accepted by the parser (what `setAttribute` then does with an empty
  name is under "Left out").
- The `is` setter only checks whether the tag is defined when it runs. Two classes
  that ask for the same tag before the event loop turns both schedule a
  definition, and the second definition throws (`Scenario.RacingDefinitions`).
- `setStateProperty` on a path the index does not hold throws (`forEach` of
  undefined) before anything changes. This is `Fail(UnknownPath(path))`.

## Model

| member | source | states |
|---|---|---|
| `JsValues.Get` | src/core-element.js:77-79 | A property read throws exactly on undefined and null. On an object it gives the key's value, or undefined for a missing key. On any other value it gives undefined. |
| `StatePath.ResolveWalk` | src/core-element.js:75-79 | The loop that reassigns `value` once per step returns the reference resolution `Resolve` of the path, including its first throw. |
| `StatePath.ResolveConcat` | src/core-element.js:76-79 | Resolving `p + q` is resolving `p`, then `q` from there. A throw in `p` is the result. |
| `StatePath.AssignSucceedsIff` | src/core-element.js:125-135 | The store at a path succeeds exactly when the walk to the parent succeeds and ends on an object. |
| `StatePath.AssignFaults` | src/core-element.js:125-135 | A failed store throws with the walk's read fault, or with a write fault on the last step when the parent is nullish or a primitive. |
| `StatePath.AssignThenResolve` | src/core-element.js:125-135 | After a successful store, the path reads back the stored value. |
| `StatePath.AssignFrame` | src/core-element.js:125-135 | After a successful store, every path that parts from the stored one reads what it read before. |
| `StatePath.AssignBelow` | src/core-element.js:125-135 | After a successful store, paths below the stored one read from the stored value. |
| `Text.Split` | src/core-element.js:18-20 | `split` on one character always yields at least one piece. |
| `Text.SplitPiecesClean` | src/core-element.js:18-20 | No piece of a split contains the separator. |
| `Text.JoinSplit` | src/core-element.js:18-20 | Joining the pieces with the separator gives the input back. |
| `Text.SplitJoin` | src/core-element.js:18-20 | Separator-free pieces, joined and then split, give the pieces back. |
| `Text.SplitPrefix` | src/core-element.js:18-20 | A separator-free prefix merges into the first piece. |
| `Text.SplitNone` | src/core-element.js:18 | A string without the separator is a single piece. |
| `Text.SplitHasSecond` | src/core-element.js:20-21 | A second piece (`keyValArr[1]`) exists exactly when the separator occurs. |
| `Text.TrimStartShape` | src/core-element.js:21 | `trimStart` returns a suffix that follows a whitespace run and does not start with whitespace. |
| `Text.TrimEndShape` | src/core-element.js:21 | `trimEnd` returns a prefix that precedes a whitespace run and does not end with whitespace. |
| `Text.TrimShape` | src/core-element.js:21 | `trim` returns the slice between a leading and a trailing whitespace run. The slice neither starts nor ends with whitespace. |
| `Text.TrimStartSkips` | src/core-element.js:21 | Leading whitespace is dropped. |
| `Text.TrimEndSkips` | src/core-element.js:21 | Trailing whitespace is dropped. |
| `Text.TrimStartAppend` | src/core-element.js:21 | A whitespace tail after a non-blank string survives `trimStart`. |
| `Text.TrimIgnoresPadding` | src/core-element.js:21 | Whitespace around a token does not change its trim. |
| `Text.CallbackName` | src/core-element.js:260 | The name is `on`, then the upper-cased first character, then the rest, then `Change`. An empty name throws. |
| `Text.CallbackNameCollision` | src/core-element.js:260 | Two names share a callback exactly when they differ at most in the case of the first letter. |
| `Dom.AttrNameLower` | src/core-element.js:83 | The attribute name `setAttribute` stores is the name with ASCII capitals lowered, character by character. |
| `Dom.Element.SetProperty` | src/core-element.js:81 | `el[name] = v` assigns the property and counts one store. Nothing else changes. |
| `Dom.Element.SetAttribute` | src/core-element.js:83 | `el.setAttribute(name, v)` sets the lower-cased attribute and counts one store. Nothing else changes. |
| `Bindings.AddBinding` | src/core-element.js:22-28 | The binding goes at the end of its path's list. A new path gets a new list and is enumerated last. Other paths keep their lists, and the index stays well formed. |
| `Bindings.PieceBindingParts` | src/core-element.js:20-28 | A piece is decided by its `split(':')` pieces. A single piece (no `:`) throws `MissingSeparator` with that text. Two or more bind the trimmed first piece, as the property, to the trimmed second piece, as the path, and the rest is ignored. Adding it puts the binding last in that path's list and leaves every other list alone. |
| `Bindings.BindCarriers` | src/core-element.js:11 | The scan keeps exactly the elements that carry a `bind` attribute: every one it returns carries one and comes from the subtree, and every carrier of the subtree is returned. |
| `Bindings.BindCarriersConcat` | src/core-element.js:11 | The scan of two consecutive stretches of the document is the scan of the first followed by the scan of the second, so carriers keep document order. |
| `Bindings.BindCarriersOne` | src/core-element.js:11 | A single element is kept exactly when it carries `bind`. |
| `Bindings.BindTexts` | src/core-element.js:17 | Each carrier is paired with its `bind` attribute. |
| `Bindings.ParseFaultSticks` | src/core-element.js:19-29 | After a throw, later pieces are never looked at. |
| `Bindings.ParseTemplateMeaning` | src/core-element.js:12-30 | With no carrier the index is left as it was, absent or not, and nothing throws. Otherwise an index exists afterwards, paths already enumerated keep their place, the parse completes exactly when every piece has a `:`, and on completion every path's list is its old list followed by its pieces' bindings. |
| `Bindings.ParseSucceedsIff` | src/core-element.js:20-21 | Parsing completes exactly when every piece contains `:`. |
| `Bindings.ParseStopsAtFirstBad` | src/core-element.js:16-29 | On a throw, the index is the one built from the pieces before the first bad piece, and the fault names that piece. |
| `Bindings.ParseAppends` | src/core-element.js:13-29 | Every path's list becomes its old list followed by its pieces' bindings, in element order and then piece order. Other paths keep their lists. |
| `Bindings.ParseKeepsOrder` | src/core-element.js:22-24 | Paths already enumerated keep their place. A path is enumerated after parsing exactly when it was before or some piece binds it. |
| `Bindings.ParseValid` | src/core-element.js:22-28 | Every path is enumerated once, and exactly the paths with an entry are. |
| `Bindings.ParseElements` | src/core-element.js:25-28 | The index refers only to elements it referred to before or that carry a piece. |
| `Bindings.PairsElements` | src/core-element.js:16-19 | Every piece belongs to one of the scanned carriers. |
| `Bindings.AddBindingElements` | src/core-element.js:25-28 | Adding a binding adds its element and no other. |
| `Bindings.DeclParts` | app-example/app/index/app-index.tpl.js:3-10 | A declaration `prop: path`, with both parts plain, is one piece that binds `prop` to `path`. |
| `Reconcile.ApplyStoreEffect` | src/core-element.js:80-84 | A defined property is assigned. Otherwise the attribute is set to the value's string form. Nothing else changes. The targeted write counts no store exactly when it skips an equal defined property. |
| `Reconcile.AfterConcat` | src/core-element.js:71-86 | Replaying `a + b` is replaying `a`, then `b`. |
| `Reconcile.AfterFrame` | src/core-element.js:71-86 | An element that no store names is left as it was. |
| `Reconcile.AfterUntouched` | src/core-element.js:71-86 | Stores that do not touch a name keep both its property and its attribute. |
| `Reconcile.AfterLastWrite` | src/core-element.js:80-84 | The last store touching a target decides what it holds: the value as the property when that was defined, otherwise the string form as the attribute. |
| `Reconcile.AfterSkipsEqual` | src/core-element.js:117-120 | Targeted stores whose defined property already equals the value leave the element as it was, store count included. |
| `Reconcile.ResolveAll` | src/core-element.js:74-78 | One resolution per key, in order: the value that key's dotted path reaches in the state, or the TypeError its walk throws. |
| `Reconcile.ReconciliationSticks` | src/core-element.js:71-86 | Once a key throws, the keys after it are never reached. |
| `Reconcile.ReconciliationFaultIff` | src/core-element.js:71-79 | The pass throws exactly when some key it reaches has bindings and a path that does not resolve. |
| `Reconcile.ReconciliationWritesEvery` | src/core-element.js:71-86 | With no throw, every binding under every key receives that key's resolved value. |
| `Reconcile.ReconciliationOnlyBindings` | src/core-element.js:71-86 | Every store of the pass belongs to a binding of a key reached and carries that key's resolved value. Nothing else is written. |
| `Reconcile.StoreValue` | src/core-element.js:80-84 | One store of the `state` setter does what `ApplyStore` says, to that element only. |
| `Reconcile.StoreChanged` | src/core-element.js:117-123 | One store of `setStateProperty` does what `ApplyStore` with the skip of equal values says, to that element only. |
| `Reconcile.WriteKey` | src/core-element.js:72-85 | Each binding of one key receives the value the key's path resolves to in the new state. A path that throws does so at the first binding, before any store. No element outside the bindings changes. |
| `Reconcile.WriteTargeted` | src/core-element.js:114-124 | Each element holds what the targeted stores of the path's bindings leave in it. No other element changes. |
| `Reconcile.WriteAll` | src/core-element.js:71-86 | The elements hold what the stores of the full plan leave in them, and the outcome is the plan's. |
| `Timers.Cancel` | src/core-element.js:146-148 | `clearTimeout` removes every callback of that id and keeps every other one. |
| `Timers.CancelConcat` | src/core-element.js:146-148 | Cancelling in two consecutive stretches of the queue gives the two results one after the other, so the callbacks that stay keep their run order. |
| `Timers.CancelOne` | src/core-element.js:146-148 | A single callback is dropped exactly when it has the cancelled id. |
| `Timers.CancelAbsent` | src/core-element.js:146-148 | Cancelling an id nobody holds changes nothing. |
| `Timers.CancelValid` | src/core-element.js:146-148 | Cancelling keeps timer ids distinct and below the next id. |
| `Timers.ScheduleValid` | src/core-element.js:149-151 | Scheduling under the next id keeps the queue well formed. |
| `Bus.Applied` | src/core-element.js:233-238 | Acting on a message suppresses the instance and stores the value in the bound property only. |
| `Bus.Deliver` | src/core-element.js:232-241 | Calling the listeners in order is defined for every instance. |
| `Bus.ReceiversMember` | src/core-element.js:233 | An instance acts exactly when it listens on the channel, is active, is not the sender, and does not hold the value. |
| `Bus.DeliverRule` | src/core-element.js:232-241 | An instance ends applied exactly when it acts, and unchanged otherwise. However many listeners it has, it acts at most once. |
| `Bus.DeliverReceivers` | src/core-element.js:232-241 | The sequential delivery and the reference definition name the same receivers. |
| `Bus.DeliverPointwise` | src/core-element.js:232-241 | Instance by instance, the sequential delivery is the reference definition `Received`. |
| `Bus.ReceiversDistinct` | src/core-element.js:234-237 | Each receiver is listed once, so one reactivation is queued per receiver. |
| `Bus.SenderUnchanged` | src/core-element.js:233 | The sender is never changed by its own message. |
| `Bus.ReceivedOthers` | src/core-element.js:232-241 | Calling one instance's listener leaves every other instance as it was. |
| `Bus.ReceiversSuppressed` | src/core-element.js:233-238 | Every receiver ends suppressed and holding the value, so it neither echoes nor takes the message again before its reactivation. |
| `Core.Without` | src/core-element.js:251 | `removeEventListener` drops that listener and keeps the others. |
| `Core.WithoutConcat` | src/core-element.js:251 | Removing from two consecutive stretches of a listener list gives the two results one after the other, so the listeners that stay keep their call order. |
| `Core.WithoutOne` | src/core-element.js:251 | A single listener is dropped exactly when it is the one removed. |
| `Core.Window.constructor` | src/core-element.js:145-152 | A fresh window has no timers, listeners, events or definitions. Timer ids start at 1, so 0 means "no timer". |
| `Core.Window.SetTimeout` | src/core-element.js:149-151 | The callback is queued last under a fresh id, which is returned. |
| `Core.Window.ClearTimeout` | src/core-element.js:146-148 | The queue loses that id's callback and stays well formed. |
| `Core.Window.NewClosure` | src/core-element.js:232 | Each call makes a new handler closure. |
| `Core.Window.AddEventListener` | src/core-element.js:241 | The listener joins the channel last, unless it is already there. |
| `Core.Window.RemoveEventListener` | src/core-element.js:251 | The listener leaves the channel. Other channels are untouched. |
| `Core.Window.PopTimer` | src/core-element.js:149-151 | The oldest callback leaves the queue to run, and the queue stays well formed. |
| `Core.Window.Dispatch` | src/core-element.js:263-268 | The event is logged. The channel's listeners, as they were when the dispatch began, are called in order. Each instance ends as `Bus.Received` says, and one reactivation is queued per receiver. |
| `Core.Window.CallListeners` | src/core-element.js:232-241 | The loop over the listeners moves each instance as the reference rule says and queues the receivers' reactivations in order. |
| `Core.Window.Offer` | src/core-element.js:232-240 | One listener call extends the delivery by its instance. |
| `Core.Window.Define` | src/core-element.js:185 | `customElements.define` refuses a name or a class already registered, and registers it otherwise. |
| `Core.PeersOf` | src/core-element.js:233 | What the receive rule sees of every listening instance. |
| `Core.Reactivations` | src/core-element.js:235-237 | One reactivation callback per receiver, in receiver order: the i-th is the reactivation of the i-th receiver, under the id `first + i`. |
| `Core.ReactivationsValid` | src/core-element.js:235-237 | Queuing the reactivations under consecutive fresh ids keeps the queue well formed. |
| `Core.PendingNone` | src/core-element.js:145-152 | An instance has no pending deferred write exactly when none is queued. |
| `Core.PendingAppend` | src/core-element.js:149-151 | Queueing a callback adds it to the instance's pending writes exactly when it is one of them. |
| `Core.SlotHoldsOne` | src/core-element.js:145-152 | When the slot `__statePropertyTimeout` holds every pending write, there is at most one. |
| `Core.PendingHead` | src/core-element.js:149-150 | The pending write that runs first is the first one queued. |
| `Core.DebounceStep` | src/core-element.js:145-152 | After the cancel and the new callback, the new id holds every pending write, and the new write is the only one. |
| `Core.LaterStep` | src/core-element.js:145-152 | One debounced call keeps the queue well formed, and the slot keeps holding the single pending write. |
| `Core.NoWritesSlot` | src/core-element.js:145-152 | With no deferred write of an instance queued, the empty slot (0, no timer) holds all of them, and none is pending. |
| `Core.FreshInstanceSlot` | src/core-element.js:146-148 | A newly constructed instance, whose `__statePropertyTimeout` is unset, has no deferred write in the queue, so the single-slot invariant holds from its construction. |
| `Core.SlotAppendOther` | src/core-element.js:245-247 | Queueing a callback that is not a deferred write of the instance (a definition, a reactivation, a `whenConnected` call, another instance's write) keeps its slot invariant and its pending writes. |
| `Core.SlotReactivations` | src/core-element.js:235-237 | The reactivations a dispatch queues keep every instance's slot invariant. |
| `Core.SlotPop` | src/core-element.js:149-151 | Taking the oldest callback off the queue keeps every instance's slot invariant. |
| `Core.SlotCancel` | src/core-element.js:146-148 | Cancelling any timer, as another instance's debounced call does, keeps every instance's slot invariant. |
| `Core.AppendAllAccumulates` | src/core-element.js:157-174 | A class's template is its old text followed by every text registered for it, in call order. The entry exists once any call named the class, and other classes are untouched. |
| `Core.TemplateRegistry.constructor` | src/core-element.js:294 | The template map starts empty. |
| `Core.TemplateRegistry.Append` | src/core-element.js:158-162 | The entry is created empty on first use, then the text is appended. |
| `Core.ComponentType.constructor` | src/core-element.js:196-198 | A new class is not bindable and has no tag. |
| `Core.ComponentType.SetStyles` | src/core-element.js:157-163 | The styles setter appends its text to the class's template. |
| `Core.ComponentType.SetTemplate` | src/core-element.js:168-174 | The template setter appends its text to the class's template. |
| `Core.ComponentType.SetIs` | src/core-element.js:179-187 | Nothing happens for a tag already defined. Otherwise the tag is recorded and exactly one deferred definition is scheduled. |
| `Core.ComponentType.SetBindable` | src/core-element.js:196-198 | `__bindable` takes the value. |
| `Core.CoreElement.constructor` | src/core-element.js:54-63 | A new instance holds its initial state and the properties it is created with (those an element inherits, such as `title`). It has no index and no timer, and neither `whenConnected` nor `onStateUpdated`, both of which the constructor sets to null. |
| `Core.CoreElement.Handle` | src/core-element.js:232-240 | The handler acts exactly when the instance is active, is not the sender, and does not hold the value. Acting suppresses it, queues one reactivation and stores the value. Otherwise nothing changes. |
| `Core.CoreElement.ConnectedCallback` | src/core-element.js:225-247 | For a bindable class, `bind-prop` is read once and `bind-id` every time. The instance becomes active and subscribes a fresh handler exactly when both are set. Otherwise nothing subscribes. In every case one `whenConnected` callback is then queued last, under the next id. |
| `Core.CoreElement.DisconnectedCallback` | src/core-element.js:250-252 | The handler leaves its channel. The other listeners keep their order, and other channels are untouched. |
| `Core.CoreElement.Notify` | src/core-element.js:259-270 | An empty name throws before anything happens. A missing or undefined value is null, the parameter's default. The change callback runs with that value when the instance has one. The value is published exactly when the class is bindable and the instance has a property, a channel and is active, so a suppressed instance never publishes. |
| `Core.CoreElement.AttributeChangedCallback` | src/core-element.js:272-277 | An unchanged value does nothing. Otherwise the property takes the new value, null when the attribute was removed. |
| `Core.CoreElement.Attr` | src/core-element.js:284-290 | Null removes the attribute. Any other value, `''` by default, is set as its string form. |
| `Core.CoreElement.SetStateHook` | src/core-element.js:63 | `onStateUpdated` is set or cleared. |
| `Core.CoreElement.SetConnectedHook` | src/core-element.js:62 | `whenConnected` is set or cleared. |
| `Core.CoreElement.SetState` | src/core-element.js:65-92 | The state is replaced. With no index nothing else happens. Otherwise the elements hold what the full plan's stores leave, the outcome is the plan's, and the hook runs exactly once, only after a completed pass. |
| `Core.CoreElement.SetStateProperty` | src/core-element.js:110-137 | With no index nothing happens. A path without an entry throws before anything changes. Otherwise the path's bindings receive the value with the skip of equal values, then the state is stored into at the path. The hook runs once after a completed call. |
| `Core.CoreElement.WriteThenStore` | src/core-element.js:114-136 | The path's bindings, the store at the path, then the hook, and nothing else. |
| `Core.CoreElement.StoreAtPath` | src/core-element.js:125-135 | The walk to the parent and `parent[lastStep] = value` produce the reference store `Assign`, thrown faults included. |
| `Core.CoreElement.SetStatePropertyLater` | src/core-element.js:145-152 | The pending callback, if any, is cancelled, and a new one is queued under the next id, which the slot keeps. When the slot held every pending write, the new write is the only one. |
| `Core.CoreElement.ParseTemplateBindings` | src/core-element.js:10-32 | The index and the outcome are those of the reference parse of the carriers' declarations. |
| `Core.CoreElement.AddDeclarations` | src/core-element.js:16-30 | The loop over the carriers builds `Parse` over all their pieces until the first throw. |
| `Core.CoreElement.AddDeclaration` | src/core-element.js:19-29 | The loop over one declaration's pieces extends `Parse` by those pieces until the first throw. |
| `Core.CoreElement.InitialRender` | src/core-element.js:38-52 | A class without a template renders nothing. Otherwise the clone's bindings are parsed. |
| `Core.Tick` | src/core-element.js:149-151 | A turn of the event loop runs the oldest callback. A deferred write is a `setStateProperty`, a reactivation sets `__bindActive`, a tag definition is a `define`, and a `whenConnected` callback calls the instance's `whenConnected` when it has one (recorded in its trace). |
| `Core.Rendered` | src/core-element.js:44-46 | The parse of a fresh clone refers only to the clone's elements. |
| `Core.Create` | src/core-element.js:54-96 | The constructor renders and parses. When the parse completed and the initial state is truthy, the `state` setter runs with it. Otherwise no element changes. |
| `Core.Construct` | src/core-element.js:54-61 | A new instance with its template rendered and its bindings parsed. |
| `Scenario.TwoWrites` | src/core-element.js:145-152 | Two debounced writes in a row leave only the second pending. |
| `Scenario.DebounceLastWins` | src/core-element.js:145-152 | After two debounced writes and one turn of the event loop, the write that ran is the last one. |
| `Scenario.ThreeIndexShape` | app-example/app/index/app-index.tpl.js:3-10 | Three declarations on distinct paths give one binding per path, in template order. |
| `Scenario.ThreeParse` | app-example/app/index/app-index.tpl.js:3-10 | Parsing three plain declarations builds that index and does not throw. |
| `Scenario.ThreePlan` | app-example/app/index/app-index.js:12-16 | A state holding one value per path reconciles to one store per binding, with no throw. |
| `Scenario.PageRendered` | app-example/app/index/app-index.tpl.js:3-10 | The index page's template renders to its three bindings. |
| `Scenario.PagePlan` | app-example/app/index/app-index.js:12-16 | The page's state reconciles over the index its template builds to one store per text `div`, with the text its path names, and no throw. |
| `Scenario.PageShows` | src/core-element.js:80-84 | Three distinct text `div`s with a defined text, receiving the page's stores, each show their own text. |
| `Scenario.PageFacts` | app-example/app/index/app-index.js:12-16 | The page's state reconciles to one store per text `div`, and each ends showing its text. |
| `Scenario.CreateThenAssign` | app-example/app/index/app-index.js:10-17 | Constructing with no state and then assigning one reconciles the elements to that state's stores. |
| `Scenario.RenderPage` | app-example/app/index/app-index.js:10-17 | The three text `div`s show `HEADER`, `CONTENT` and `FOOTER`. |
| `Scenario.AppIndexPage` | app-example/app/index/app-index.js:8-27 | The example index page ends with its three texts shown and no throw. |
| `Scenario.PairDelivery` | src/core-element.js:232-240 | A message from the first of two listeners reaches the second only. |
| `Scenario.InheritedTitle` | src/core-element.js:233 | An instance bound to `title`, which every element starts with as `""`, ignores a message carrying `""` and takes one carrying another text. |
| `Scenario.JoinChannel` | src/core-element.js:225-247 | A connected bindable instance with both attributes publishes, listens last on its channel, and queues its `whenConnected` callback last. |
| `Scenario.ConnectedPair` | src/core-element.js:225-247 | Two connected instances both listen on the channel, in connection order, and each has queued its `whenConnected` callback, in the same order. |
| `Scenario.PublishOnce` | src/core-element.js:259-270 | One publication logs one event, updates and suppresses the peer, and queues its reactivation behind the two `whenConnected` callbacks. |
| `Scenario.EchoThenTick` | src/core-element.js:262 | The suppressed peer's echo publishes nothing. The first two turns of the event loop run the `whenConnected` callbacks and leave the peer suppressed, and the third reactivates it. |
| `Scenario.ThreeTurns` | src/core-element.js:235-247 | The three queued callbacks run in scheduling order: the peer is still suppressed after the two `whenConnected` calls and active after its reactivation, and the queue is then empty. |
| `Scenario.ChannelExchange` | src/core-element.js:232-270 | Two peers exchanging one update stop after one event. The receiver is still suppressed after the two `whenConnected` turns and active again after the third. |
| `Scenario.AppIndexTemplate` | app-example/app/index/app-index.js:25-26 | The styles and then the template build one template, in that order. |
| `Scenario.AppIndexTag` | app-example/app/index/app-index.js:27 | Setting the tag defines it on the next turn of the event loop. A later class asking for it schedules nothing. |
| `Scenario.RacingDefinitions` | src/core-element.js:179-187 | Two classes asking for one tag before the event loop turns: the first definition succeeds and the second throws. |

## Left out

- ShadyDOM and ShadyCSS interop (`isShady`, `prepareTemplate`, `styleElement`): calls into a polyfill outside this code.
- The shadow root, cloning the template and `querySelectorAll`: the rendered clone is given as a sequence of elements in document order, root excluded. HTML serialisation of `innerHTML` is not modelled; templates are the concatenated strings.
- The fields named by `id`s that contain `-` (`this[el.id] = el`): reflective plumbing with no effect on the bindings.
- What the user's `whenConnected` does: its timer is queued by `connectedCallback` and its call is recorded as `Connected` in `trace`, with no other effect.
- `Core.CoreElement.constructor`: the instance's own `state` accessor is not one of its properties. With `bind-prop="state"` the source's handler runs the `state` setter and its whole pass (src/core-element.js:65-92), where the model stores the value in the property map. Inherited element properties are those the caller passes in.
- Adding or replacing an `on<Name>Change` callback on an instance: `callbacks` is the set of such methods the instance has from its class, fixed at construction.
- The effects of the user's `onStateUpdated` and `on<Name>Change` hooks: they are recorded as calls in `trace` and do nothing else.
- `updateTemplateBindings`: it calls the parser without a root, so as written it throws before doing anything.
- `logicAttributes`, `observedAttributes` and the `inst` getter: property-definition plumbing.
- The `is` and `bindable` getters, and the `state` getter: they read the fields `tag`, `bindable` and `state` (for inheritance of the first two, see `Core.ComponentType.constructor`).
- Timer delays, including the `debounceTimeout` argument: callbacks run in the order they were scheduled.
- Custom-element name validity and the browser's upgrade of existing elements: `customElements` is a map from name to class.
- Aliasing of the state tree: the state is a value, and `parent[lastStep] = value` builds the new tree. An object shared between the state and a property is not seen to change in both places.
- Object identity: `!==` on objects is reference equality in the source, but the model compares values structurally.
- Numbers are integers: floating point, `NaN` and `-0` are not modelled. `String(v)` of a number is its decimal form.
- The string coercion of values written with `setAttribute` is `JsValues.ToStr`. Host-object conversions of the browser are not modelled.
- Properties of primitive values (e.g. `'abc'.length`) and inherited prototype keys: a read of a key from a primitive is undefined; an object has only its own keys. The binding index is a map with only its own keys too. In the source, a path such as `constructor` or `toString` finds an inherited function in `__stateBindingsMap`, so no list is created and `push` throws (src/core-element.js:22-25). The model gives such a path a fresh list.
- The `for … in` order of integer-like keys: paths are enumerated in the order they were first added.
- The `bind-id` and `bind-prop` attributes are read as `""` when absent, which is as falsy as the `null` the browser returns. `getAttribute` is only called with lower-case names here.
- A subclass setter reacting to the handler's `this[prop] = value` (for example by calling `notify`): the handler stores into the instance's property map, and no user code runs during a delivery.
- Element property setters with side effects (for example `textContent` replacing children): an assignment only updates the element's property map.
- `Dom.Element.SetAttribute`: never throws. The DOM's `setAttribute` throws `InvalidCharacterError` on a name that is not a valid attribute name, for example an empty one. The model stores any name.
- `Reconcile.ApplyStore`: the attribute branch does not throw on an invalid name. A declaration `bind=": headerTxt"` binds the empty property, and when that property is undefined the source's `setAttribute("", …)` throws.
- `Reconcile.ApplyStoreEffect`: states the store without the `setAttribute` throw on an invalid name, as `Reconcile.ApplyStore` does.
- `Reconcile.ReconciliationFaultIff`: the pass throws exactly when a path does not resolve. The source also throws at the first attribute store under an invalid name, which is not modelled (see `Reconcile.ApplyStore`).
- `Reconcile.WriteTargeted`: the attribute stores of `setStateProperty` are not checked for an invalid name, so they never throw.
- `Core.CoreElement.SetState`: a pass over a binding with an invalid attribute name completes and runs `onStateUpdated`. In the source `setAttribute` throws there and the hook never runs.
- `Core.CoreElement.SetStateProperty`: a binding with an invalid attribute name does not throw, so the state is stored and the hook runs. In the source the `forEach` throws first.
- `Core.CoreElement.Attr`: `attr` with an invalid name does not throw.
- `Text.CallbackName`: upper-cases ASCII letters only. JavaScript's `toUpperCase` maps the whole of Unicode: `'é'` becomes `'É'`, and `'ß'` becomes `"SS"`, which also makes the name one character longer. For a first character outside ASCII the model's name differs from the source's.
- `Text.CallbackNameCollision`: the "exactly when" holds of the ASCII upper-casing. Under full Unicode more names share a callback, for example `ßx` and `SSx` both give `onSSxChange`.
- `Core.ComponentType.constructor`: every class is taken to extend `CoreElement` directly. In the source `__bindable` and `__is` are looked up along the prototype chain of the class, so a subclass of a bindable or tagged class is bindable and has that tag until it sets its own. The model starts every class non-bindable and without a tag.
- `Scenario.RenderPage`: the rendered page has the five elements that matter for the bindings. The three `button-com` elements inside the menu `div` carry no `bind`, so they would not be kept by the scan (`Bindings.BindCarriersConcat`, `Bindings.BindCarriersOne`). They are left out of the sequence.
