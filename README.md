# Illuminate, modelled in Dafny

This project models the core of Illuminate, a Swift toolkit for iOS apps. Each Dafny module
follows one part of the library.

- **Coordination**
  - A tree of coordinators (`BaseCoordinator`, `TabbarCoordinator`) that start children and
    tear them down.
  - Each coordinator resolves its navigation controller and shows screens through a
    transition: push, present, reset or none.
  - A tab bar caches the stack of each tab it leaves.
  - Events bubble out to the parents or in to the children.
  - A custom-transition manager hands out push/pop animators.
- **Codable wrappers**
  - `DefaultCodable` falls back to a default.
  - `CodableConvertor` maps between a return type and a value type.
  - `Filterable` filters on read.
  - `UnknownableEnum` turns any bad raw value into `.unknown`.
  - The `URL` keyed-container overloads.
  - These are modelled over a small JSON value type.
- **Routing**
  - `RoutingManager` asks the registered route types in order and publishes the first route
    recognised.
  - `getPath(from:)` turns a URL into a path.
- **Support**
  - The debug panel's rows, buttons and display rules, and its log handler.
  - `TaskDisposeBag`.
  - `BackgroundProcessManager`, with the scheduler calls it makes.
  - `ObservableModule`, whose main-actor setters are a queue of pending updates.
- **Foundation helpers**
  - Array `subscript(optional:)` and `chunk(_:)`, and `GridView`'s rows.
  - `Dictionary.map`.
  - `URL.appendQueryParameter`.
  - `firstUppercased`, `strippedHTML` and `String.hexadecimal`, with the `%02X` device-token
    encoding.
  - The integer part of the `UIColor` hex initialisers.

Classes model objects whose fields the source changes in place: `Coordinators`,
`DebugPanel`, `DebugPanelLogHandler`, `TaskDisposeBag`, `BackgroundProcessManager`,
`ObservableModule`, `RoutingManager` and `CustomTransitionManager`. Pure code is modelled
as datatypes and functions.

**Coordinators.** All coordinators live in one arena, a map from identity to node. A node
holds:

- its parent;
- its child set, in insertion order;
- its stored transition;
- its own navigation controller;
- its position index;
- for a tab bar, the tab state.

A navigation controller is reduced to its stack of screens. UIKit calls that do more than
change a stack are recorded in order, and so is each call of a coordinator's `start()`.

**Fuel.** Walks up or down the tree carry a ghost `fuel` bound. The tree is built by
reference, so nothing in the source rules out a cycle.

## Model

| member | source | states |
|---|---|---|
| CoordinatorTree.Include | Sources/Coordination/BaseCoordinator.swift:51 | Adding to the child set: the new member and every old one is in it, and nothing else. |
| CoordinatorTree.StartedTree | Sources/Coordination/BaseCoordinator.swift:50-55 | Starting a child puts it in the parent's child set, stores the transition and points the child at the parent. The child's controller, tab state and position are kept, and no other node changes. |
| CoordinatorTree.Lineage | Sources/Coordination/Coordinator.swift:49-55 | The walk up the parent links starts at the node and stays in the arena. Each step follows a parent link, and the walk ends at a node without a parent. |
| CoordinatorTree.SelfParentHasNoLineage | Sources/Coordination/Coordinator.swift:49-55 | A node that is its own parent has no root: the walk never ends, for any bound. |
| CoordinatorTree.Resolve | Sources/Coordination/Coordinator.swift:71-85 | The `navigationController` getter walks up. It finds an own or inherited controller, or it creates one on a parentless node that has none. |
| CoordinatorTree.ResolvedIsOwned | Sources/Coordination/Coordinator.swift:73-79 | A resolved controller is the own controller of some node on the way up. |
| CoordinatorTree.LineageResolves | Sources/Coordination/Coordinator.swift:71-85 | Whenever the walk to the root ends, the controller lookup ends too. |
| CoordinatorTree.ResolveAfterCreate | Sources/Coordination/Coordinator.swift:80-83 | Once a created controller is stored on the parentless node, the node that asked resolves to it, so a second read gives the same controller. |
| CoordinatorTree.SameLinksSameWalks | Sources/Coordination/Coordinator.swift:57-69 | Storing a transition, a position or tab state changes neither the walk to the root nor the controller lookup. |
| CoordinatorTree.Reparented | Sources/Coordination/BaseCoordinator.swift:142-144 | A reset points the node's parent at its root. A node without a parent becomes its own parent. Its other fields and every other node are unchanged. |
| CoordinatorTree.ReparentedResolves | Sources/Coordination/BaseCoordinator.swift:144-150 | After re-pointing, the stack lookup of a reset ends, unless the node had neither a parent nor an own controller. |
| CoordinatorTree.ParentlessResetNeverResolves | Sources/Coordination/BaseCoordinator.swift:144 | As written, a parentless node without its own controller is made its own parent, and the lookup then never ends, for any bound. |
| CoordinatorTree.ReparentedIntended | Sources/Coordination/BaseCoordinator.swift:144 | Corrected re-pointing: the parent becomes the root, and the root itself keeps no parent. The node's other fields and every other node are unchanged. |
| CoordinatorTree.ReparentedIntendedResolves | Sources/Coordination/BaseCoordinator.swift:144-150 | With the corrected re-pointing, the lookup of every node ends within one step. |
| CoordinatorTree.TornDown | Sources/Coordination/TabbarCoordinator.swift:16-22 | A node after teardown has no children; its parent, controller and transition are kept; a tab bar forgets its active tab and its cache. |
| CoordinatorTree.DescendantsTornDown | Sources/Coordination/BaseCoordinator.swift:57-62 | The teardown reaches every node below the starting one, and each ends with no children. |
| TabSwitching.TabSwitch | Sources/Coordination/TabbarCoordinator.swift:35-63 | After `startTab` the selected index is active, its `reset` flag is stored and the index is not in the cache. A cached stack is restored exactly when the index was cached once the active tab was put away. |
| TabSwitching.SwitchStoresLiveStack | Sources/Coordination/TabbarCoordinator.swift:46-48 | Leaving an active tab caches its live stack under its index. |
| TabSwitching.ReselectWithScreens | Sources/Coordination/TabbarCoordinator.swift:42-45 | Reselecting the active tab with screens on it drops its cache entry and starts a child. The child's reset is animated exactly when more than one screen was on the stack. |
| TabSwitching.OnlyReselectAnimates | Sources/Coordination/TabbarCoordinator.swift:39-45 | The child's reset is animated exactly when the active tab, read without `reset`, is reselected with more than one screen. A switch to another tab, no active tab, or `shouldReset` all give an unanimated reset. |
| TabSwitching.ReselectEmpty | Sources/Coordination/TabbarCoordinator.swift:40-57 | Reselecting the active tab with an empty stack caches `[]` and restores it; no child starts. |
| TabSwitching.CachedTabRestored | Sources/Coordination/TabbarCoordinator.swift:52-57 | A cached stack is restored and leaves the cache. |
| TabSwitching.UncachedTabStartsChild | Sources/Coordination/TabbarCoordinator.swift:59-62 | With nothing cached for the index, the cache keeps what was stowed and a child is started. |
| TabSwitching.SwitchAwayAndBack | Sources/Coordination/TabbarCoordinator.swift:35-63 | Leaving tab i for an uncached tab and coming back restores exactly the stack tab i had. |
| Coordination.Activated | Sources/Coordination/TabbarCoordinator.swift:36-38 | The deferred `activeIndex = index` changes the tab bar's active index only: its cache and `shouldReset`, the node's other fields and every other node are unchanged. |
| Coordination.StartThenActivate | Sources/Coordination/TabbarCoordinator.swift:36-62 | Running the deferred `activeIndex` assignment after the child's start, as the `defer` block does when `startTab` returns, gives the same tree as running it before. |
| Coordination.ShowKeepsChildren | Sources/Coordination/BaseCoordinator.swift:112-156 | Showing a screen re-links nothing: every node keeps its children and its tab state. |
| Coordination.ShowResolvesToLive | Sources/Coordination/BaseCoordinator.swift:139-140 | After a push or an in-place presentation, the node resolves to the controller the screen went to. |
| Coordination.PresentedStackBecomesOwn | Sources/Coordination/BaseCoordinator.swift:124-130 | After presenting in a new navigation controller, that controller holds just the screen and becomes the node's own. |
| Coordination.ResetRepointsParent | Sources/Coordination/BaseCoordinator.swift:142-144 | A reset sets the parent to the root. On a parentless node this makes the node its own parent, and `rootCoordinator` then never returns for it. |
| Coordination.Coordinators.NewCoordinator | Sources/Coordination/BaseCoordinator.swift:44-45 | A new coordinator has no parent, no children and nothing stored. Only the tab bar has empty tab state. |
| Coordination.Coordinators.NewNavigationController | Sources/Coordination/BaseCoordinator.swift:124 | A new navigation controller is a fresh identity holding the given screens. |
| Coordination.Coordinators.SetNavigationController | Sources/Coordination/Coordinator.swift:87-90 | The setter stores the controller as the node's own and changes nothing else. |
| Coordination.Coordinators.PositionIndex | Sources/Coordination/Coordinator.swift:33-36 | The stored position index, or 0 when none was stored. |
| Coordination.Coordinators.SetPositionIndex | Sources/Coordination/Coordinator.swift:37-39 | After the setter, the getter returns the index set. |
| Coordination.Coordinators.GetTransition | Sources/Coordination/Coordinator.swift:57-65 | The stored transition. On the first read it is the default animated push, which is then stored. |
| Coordination.Coordinators.SetTransition | Sources/Coordination/Coordinator.swift:66-68 | The transition is stored and nothing else changes. |
| Coordination.Coordinators.NavigationController | Sources/Coordination/Coordinator.swift:71-85 | The getter returns the controller `Resolve` names, creating and storing one when needed. Afterwards the node resolves to it. |
| Coordination.Coordinators.ResolvedStackExists | Sources/Coordination/Coordinator.swift:71-85 | A controller that a node resolves to, through its own link or an ancestor's, already exists. |
| Coordination.Coordinators.RootCoordinator | Sources/Coordination/Coordinator.swift:49-55 | The loop ends at the last node of the walk up, which has no parent. |
| Coordination.Coordinators.TopCoordinator | Sources/Coordination/Coordinator.swift:45-47 | Following last children ends at a node without children. |
| Coordination.Coordinators.Show | Sources/Coordination/BaseCoordinator.swift:112-156 | `show` applies the node's transition: push, present in place, present in a new stack, reset, or nothing. |
| Coordination.Coordinators.PushScreen | Sources/Coordination/BaseCoordinator.swift:139-140 | The screen goes on top of the resolved stack, and the push is recorded with its animation flag. |
| Coordination.Coordinators.PresentInPlace | Sources/Coordination/BaseCoordinator.swift:114-121 | The screen is presented from the resolved stack, full screen or not, and the stack is unchanged. |
| Coordination.Coordinators.PresentInNewStack | Sources/Coordination/BaseCoordinator.swift:124-138 | A new controller holding just the screen is presented from the resolved stack and becomes the node's own. A close button that dismisses it is attached. |
| Coordination.Coordinators.ResetStack | Sources/Coordination/BaseCoordinator.swift:142-151 | The parent becomes the root, then the resolved stack becomes exactly `[screen]`. A backwards, animated reset of a non-empty stack goes through `[screen, last]` and an animated pop. |
| Coordination.Coordinators.ReparentToRoot | Sources/Coordination/BaseCoordinator.swift:144 | `parentCoordinator = rootCoordinator`. |
| Coordination.Coordinators.ReplaceStack | Sources/Coordination/BaseCoordinator.swift:145-151 | The stack ends as `[screen]`. The calls are either the pair set-then-pop or a single set. |
| Coordination.Coordinators.Start | Sources/Coordination/BaseCoordinator.swift:50-55 | The tree becomes `StartedTree`, then the child's `start()` runs. |
| Coordination.Coordinators.StartDefault | Sources/Coordination/Coordinator.swift:93-96 | `start(coordinator:)` starts the child with an animated push. |
| Coordination.Coordinators.StartTab | Sources/Coordination/TabbarCoordinator.swift:35-63 | The tab state becomes what `TabSwitch` decides. A restored stack replaces the live one without animation; otherwise the child starts with a reset transition. `reset` defaults to false. |
| Coordination.Coordinators.Activate | Sources/Coordination/TabbarCoordinator.swift:36-38 | The deferred active-index assignment runs on both paths. |
| Coordination.Coordinators.StowActiveTab | Sources/Coordination/TabbarCoordinator.swift:39-50 | Before the lookup, the active tab's stack is cached, or its entry is dropped on reselection. `shouldReset` is stored. |
| Coordination.Coordinators.LookAtActiveTab | Sources/Coordination/TabbarCoordinator.swift:40-49 | Reads the live stack and computes the stowed cache and the animation flag as `TabSwitch` does. |
| Coordination.Coordinators.RestoreTab | Sources/Coordination/TabbarCoordinator.swift:52-57 | The cached stack replaces the live one, without animation, and leaves the cache. |
| Coordination.Coordinators.RemoveChildCoordinators | Sources/Coordination/TabbarCoordinator.swift:24-26 | Dispatch on the node's class. Every descendant and the node end torn down, and only nodes below change. |
| Coordination.Coordinators.RemoveTabChildCoordinators | Sources/Coordination/TabbarCoordinator.swift:16-22 | Empties the tab cache and forgets the active tab unless `keepCurrent`, then runs the base teardown. |
| Coordination.Coordinators.BaseRemoveChildCoordinators | Sources/Coordination/BaseCoordinator.swift:57-62 | Each former child tears down its own subtree, then the child set is emptied. No other node changes. |
| Transitions.Animator.constructor | Sources/Coordination/Transition.swift:57-60 | `isPushing` reads false until it is set. |
| Transitions.Animator.SetPushing | Sources/Coordination/Transition.swift:61-63 | The flag takes the value set. |
| CustomTransitions.CustomTransitionManager.constructor | Sources/Coordination/Transition/CustomTransitionManager.swift:26 | A new manager has no animators registered. |
| Transitions.DefaultPresentSettings | Sources/Coordination/Transition.swift:44-47 | `PresentSettings()` uses a new navigation controller and is not full screen. |
| Transitions.DefaultTransition | Sources/Coordination/Transition.swift:15-18 | `Transition()` is an animated push. |
| Transitions.DefaultCaseArguments | Sources/Coordination/Transition.swift:27-31 | `.reset()` does not go backwards, and `.present()` uses a new navigation controller. |
| CustomTransitions.CustomTransitionManager.Add | Sources/Coordination/Transition/CustomTransitionManager.swift:28-30 | Registers the animator for the screen, replacing any earlier one. |
| CustomTransitions.CustomTransitionManager.AnimationController | Sources/Coordination/Transition/CustomTransitionManager.swift:32-48 | On a push, the destination's animator, flagged as pushing. On a pop, the source's animator, flagged as popping. Otherwise none. No other animator's flag changes. |
| CustomTransitions.TransitionManagers.ManagerFor | Sources/Coordination/Transition/CustomTransitionManager.swift:14-21 | The controller's manager: the one already attached, or a new empty one attached now. |
| Bubbling.BubbleOutward | Sources/Coordination/Coordinator+bubbling.swift:58-64 | The handler runs on each conforming coordinator of the walk from the node to the root, in that order, without stopping at the first. `found` says whether any ran. |
| Bubbling.BubbleFunc | Sources/Coordination/Coordinator+bubbling.swift:66-73 | The recursive loop over the children invokes exactly `InwardFrom`, the depth-first scan with its early return under `halt`. |
| Bubbling.Bubble | Sources/Coordination/Coordinator+bubbling.swift:44-77 | Bubbling in either direction invokes `Bubbled`, only on conforming coordinators. `found` says whether it ran at all. The direction defaults to outward. |
| Bubbling.BubbleSelector | Sources/Coordination/Coordinator+bubbling.swift:80-114 | The selector form runs on coordinators that both conform and respond, in the same order. The direction defaults to outward. |
| Bubbling.InwardOnlyListeners | Sources/Coordination/Coordinator+bubbling.swift:48-55 | Inward bubbling reaches only conforming coordinators. |
| Bubbling.InwardWithoutHalt | Sources/Coordination/Coordinator+bubbling.swift:66-73 | Without `halt`, inward bubbling is the pre-order of the nodes below, filtered to the conforming ones. |
| Bubbling.HaltAtFirstMatch | Sources/Coordination/Coordinator+bubbling.swift:67-70 | With `halt`, the scan of a sibling list ends at its first conforming child, which is the last one invoked. |
| Bubbling.InwardExcludesStart | Sources/Coordination/Coordinator+bubbling.swift:66-74 | Inward bubbling never runs the handler on the coordinator it starts from. |
| Bubbling.OutwardStartsAtSelf | Sources/Coordination/Coordinator+bubbling.swift:59-62 | A conforming coordinator is the first to receive its own outward event. |
| Bubbling.HaltEndsOnlyItsSiblingList | Sources/Coordination/Coordinator+bubbling.swift:66-73 | On a sample tree, a halt ends only the sibling list it occurs in, and the outer scan goes on. |
| DefaultCodables.DefaultZero | Sources/Codable/DefaultCodable.swift:28-50 | The zero default is 0 for every numeric kind. |
| DefaultCodables.FirstEnumCase | Sources/Codable/DefaultCodable.swift:94-96 | The first of `allCases`. |
| DefaultCodables.LastEnumCase | Sources/Codable/DefaultCodable.swift:99-101 | The case at index `count - 1`. |
| DefaultCodables.Decode | Sources/Codable/DefaultCodable.swift:111-119 | The raw decode's value when it succeeds, and the default whatever error it throws. It never throws. |
| DefaultCodables.DecodeAt | Sources/Codable/DefaultCodable.swift:131-137 | A missing key or a null gives the default, any other value goes through `Decode`, and it never throws. |
| DefaultCodables.RoundTrip | Sources/Codable/DefaultCodable.swift:111-123 | A value the raw type round-trips is decoded back from what the wrapper encodes. |
| DefaultCodables.RoundTripAt | Sources/Codable/DefaultCodable.swift:121-137 | The same under a key, except for a value that encodes to null, which comes back as the default. |
| DefaultCodables.DefaultNilDropsBadValues | Sources/Codable/DefaultCodable.swift:111-119 | With the nil strategy, a value that does not decode is nil. |
| DefaultCodables.DefaultFalseCases | Tests/CodableTests/CodableTests.swift:172-188 | `hasFruit`: `true` reads true, while "something" and a missing key read false. |
| DefaultCodables.VegetableFromRaw | Tests/CodableTests/CodableTests.swift:24-28 | The vegetable a raw value names, if any. |
| DefaultCodables.DefaultNilCases | Tests/CodableTests/CodableTests.swift:155-170 | "carrot" is no vegetable and 1234 is no string: both read nil, while "tomato" reads `.tomato`. |
| DefaultCodables.MissingKeyGivesDefault | Sources/Codable/DefaultCodable.swift:131-137 | A missing key gives each strategy's default: zero, empty, nil, false and true. The first-case and last-case clauses state the fallback that `FirstEnumCase` and `LastEnumCase` document; the source declares them value providers, not strategies. |
| Convertors.WithDefaultAnswer | Sources/Codable/Convertor.swift:24-28 | A provider without its own `shouldAlwaysDecode` answers false. |
| Convertors.Init | Sources/Codable/Convertor.swift:34-36 | `init()` holds the provider's default. |
| Convertors.Decode | Sources/Codable/Convertor.swift:42-65 | As written: null gives the default. The return type is decoded directly only when the two types are equal and the provider does not insist. Otherwise the value type is decoded and mapped, or the default is used. It never throws. |
| Convertors.Encode | Sources/Codable/Convertor.swift:67-73 | The return-type form is written. Only when that fails is the value-type form written, and nothing when both fail. |
| Convertors.DecodeIntended | Sources/Codable/Convertor.swift:42-65 | Corrected decode: when the value type does not decode, the return type is tried before falling back to the default. |
| Convertors.SameTypesRoundTrip | Sources/Codable/Convertor.swift:42-73 | With equal types, a value that round-trips through the type round-trips through the wrapper. |
| Convertors.DifferingTypesLoseTheValue | Sources/Codable/Convertor.swift:51-53 | With differing types, the encoded return-type form decodes to the default unless it also decodes as the value type. |
| Convertors.IntendedRoundTrip | Sources/Codable/Convertor.swift:42-73 | The corrected decode reads back what `Encode` writes. |
| Convertors.IntendedAgreesOnValues | Sources/Codable/Convertor.swift:42-65 | The corrected decode agrees with the decode as written wherever the latter does not fall back to the default. |
| Convertors.PriceCases | Tests/CodableTests/ConvertorTests.swift:43-77 | "3.99" is parsed and null is 0. The number 5.11 gives 0 as written and 5.11 as intended. |
| Filterables.Get | Sources/Codable/Filterable.swift:39-42 | The reader sees the stored elements the strategy keeps, in order. |
| Filterables.Set | Sources/Codable/Filterable.swift:43-50 | The new array is stored unfiltered. |
| Filterables.Decode | Sources/Codable/Filterable.swift:52-55 | Every element is decoded and stored, and one element that fails fails the whole. |
| Filterables.Encode | Sources/Codable/Filterable.swift:57-60 | The filtered view is encoded, not the stored array. |
| Filterables.GetAfterSet | Sources/Codable/Filterable.swift:39-46 | Reading after a set gives the set array, filtered. |
| Filterables.ReassignIsStable | Sources/Codable/Filterable.swift:39-46 | Assigning the wrapped value to itself changes nothing a reader sees. |
| Filterables.RoundTrip | Sources/Codable/Filterable.swift:52-60 | What is encoded decodes to the same filtered view. |
| Filterables.UnknownEnumFilterableCase | Tests/CodableTests/CodableTests.swift:121-130 | ["apple", "banana", "pear"] reads as [.apple, .banana]. |
| Filterables.DecodeSalad | Tests/CodableTests/CodableTests.swift:60-71 | A salad decodes from an object with a string name and a fruit, and fails otherwise. |
| Filterables.UnknownFilterableCase | Tests/CodableTests/CodableTests.swift:143-153 | Of the salads of apple, tangerine and pear, two remain. |
| UnknownableEnums.Decode | Sources/Codable/UnknownableEnum.swift:17-19 | The case the raw value names. A raw value that does not decode or names no case gives `unknown`. It never throws. |
| UnknownableEnums.RoundTrip | Sources/Codable/UnknownableEnum.swift:17-19 | A case written as its raw value reads back as itself. |
| UnknownableEnums.FruitFromRaw | Tests/CodableTests/CodableTests.swift:17-22 | The fruit a raw value names, if any. |
| UnknownableEnums.DecodeFruit | Sources/Codable/UnknownableEnum.swift:17-19 | A fruit decodes to a case, never to an error. |
| UnknownableEnums.FruitRawCases | Tests/CodableTests/CodableTests.swift:17-22 | Each raw value names its case, and "pear" names none. |
| UnknownableEnums.FruitCases | Tests/CodableTests/CodableTests.swift:109-119 | ["apple", "banana", "pear"] reads as [.apple, .banana, .unknown]. |
| UrlCodables.DecodeUrl | Sources/Codable/URLCodable.swift:10-16 | A missing key or a non-string throws the string's error. A string the parser rejects is a type mismatch at `[key]`; otherwise the result is the URL. |
| UrlCodables.DecodeUrlIfPresent | Sources/Codable/URLCodable.swift:18-23 | A missing key, a null or a rejected string gives nil. A value that is not a string throws. |
| UrlCodables.EncodeUrl | Sources/Codable/URLCodable.swift:27-29 | The absolute string is stored under the key. |
| UrlCodables.EncodeUrlIfPresent | Sources/Codable/URLCodable.swift:31-33 | Nil writes nothing, and any other value is encoded as `EncodeUrl` does. |
| UrlCodables.RoundTrip | Sources/Codable/URLCodable.swift:10-29 | A URL whose string parses back to it is read back by both decoders. |
| UrlCodables.OptionalRoundTrip | Sources/Codable/URLCodable.swift:18-33 | An optional URL, nil included, is read back. |
| UrlCodables.RejectedStringDiffers | Sources/Codable/URLCodable.swift:10-23 | For a rejected string, the required form throws while the optional form gives nil. |
| Routing.Contains | Sources/Routing/Route.swift:17 | `contains` holds exactly when the substring occurs at some index. |
| Routing.GetPath | Sources/Routing/Route.swift:15-22 | With a scheme and a host, an http scheme or the bundle identifier gives "/host" + path. Every other case gives the relative path. The result is never nil. |
| Routing.PathEndsWithRelativePath | Sources/Routing/Route.swift:15-22 | The path always ends with the relative path. |
| Routing.FirstMatch | Sources/Routing/RoutingManager.swift:45-55 | A route exactly when some registered type recognises the URL. It is that of the first such type. |
| Routing.Published | Sources/Routing/RoutingManager.swift:25-30 | A subscriber for a type receives exactly the values of the routes of that type sent, in order. |
| Routing.PublishedConcat | Sources/Routing/RoutingManager.swift:25-30 | What a subscriber receives from two runs of sends is what it receives from each, in order. |
| Routing.NotificationUrl | Sources/Routing/RoutingManager.swift:57-69 | The parse of the "data"/"url" text when it parses. Otherwise the parse of the "url" text when that parses. Otherwise none, and none only then. |
| Routing.DataUrlText | Sources/Routing/RoutingManager.swift:60-61 | The text under "data"/"url" exactly when "data" is an object whose "url" is a string. |
| Routing.UrlText | Sources/Routing/RoutingManager.swift:65 | The text under "url" exactly when it is a string. |
| Routing.RoutingManager.RegisterRoutes | Sources/Routing/RoutingManager.swift:19-21 | The types are appended in order, duplicates kept. |
| Routing.RoutingManager.constructor | Sources/Routing/RoutingManager.swift:17 | No route types are registered and nothing has been sent. |
| Routing.RoutingManager.Handle | Sources/Routing/RoutingManager.swift:45-55 | The loop sends the first route and answers true. When no type matches, nothing is sent and the answer is false. |
| Routing.RoutingManager.HandleNotification | Sources/Routing/RoutingManager.swift:57-69 | The notification's URL is handled, if one parses. |
| Routing.HandleDeliversAtMostOne | Sources/Routing/RoutingManager.swift:45-55 | One `handle(url:)` delivers at most one value, and only to subscribers of the matching type. |
| Routing.DashboardCase | Tests/RoutingTests/RoutingTests.swift:44-65 | "app://dashboard" reaches the dashboard route as "/dashboard" exactly when the bundle identifier is "app". Under any other identifier nothing handles it. |
| DisposeBags.TaskDisposeBag.Add | Sources/Foundation/Utils/TaskDisposeBag.swift:19-21 | The task joins at the end, and nothing is cancelled. |
| DisposeBags.TaskDisposeBag.constructor | Sources/Foundation/Utils/TaskDisposeBag.swift:16-17 | A new bag holds no task and has cancelled none. |
| DisposeBags.TaskDisposeBag.Dispose | Sources/Foundation/Utils/TaskDisposeBag.swift:23-28 | Every task is cancelled once per time it was added, in the order added, and the bag is emptied. |
| DisposeBags.TaskDisposeBag.Deinit | Sources/Foundation/Utils/TaskDisposeBag.swift:30-32 | The bag going away disposes of it. |
| DisposeBags.AddAssign | Sources/Foundation/Utils/TaskDisposeBag.swift:35-37 | `+=` is `add`. |
| DisposeBags.Lifetime | Sources/Foundation/Utils/TaskDisposeBag.swift:14-37 | A bag that is given tasks and then goes away cancels exactly those tasks, in order. |
| BackgroundProcesses.SubmitCalls | Sources/BackgroundProcess/BackgroundProcessManager.swift:76-88 | A submission cancels the pending request, then requests anew after the task's interval. |
| BackgroundProcesses.BackgroundProcessManager.constructor | Sources/BackgroundProcess/BackgroundProcessManager.swift:28-40 | No tasks and no scheduler calls. The background is observed exactly outside the simulator. |
| BackgroundProcesses.SubmitAllCalls | Sources/BackgroundProcess/BackgroundProcessManager.swift:70-74 | Every task is resubmitted in order, due after the delay. |
| BackgroundProcesses.BackgroundProcessManager.CancelBackgroundTask | Sources/BackgroundProcess/BackgroundProcessManager.swift:42-46 | The identifier's tasks leave the list and one cancel call is made. |
| BackgroundProcesses.BackgroundProcessManager.RegisterBackgroundTask | Sources/BackgroundProcess/BackgroundProcessManager.swift:48-68 | An identifier already registered changes nothing, its interval included. A new one is appended and its handler registered. The interval defaults to 3600 seconds. |
| BackgroundProcesses.BackgroundProcessManager.SubmitBackgroundTask | Sources/BackgroundProcess/BackgroundProcessManager.swift:76-88 | Makes exactly the calls of `SubmitCalls`. |
| BackgroundProcesses.BackgroundProcessManager.SubmitBackgroundTasks | Sources/BackgroundProcess/BackgroundProcessManager.swift:70-74 | The loop makes exactly the calls of `SubmitAllCalls`. |
| BackgroundProcesses.BackgroundProcessManager.DidEnterBackground | Sources/BackgroundProcess/BackgroundProcessManager.swift:35-38 | On entering the background, the tasks are resubmitted due after 10 seconds, and never in the simulator. |
| BackgroundProcesses.RegisterKeepsUnique | Sources/BackgroundProcess/BackgroundProcessManager.swift:50-54 | Registering keeps identifiers unique, and the identifier is registered afterwards. |
| BackgroundProcesses.CancelRemovesOnlyIdentifier | Sources/BackgroundProcess/BackgroundProcessManager.swift:42-46 | Cancelling removes every task with the identifier, keeps every other task in order, and keeps identifiers unique. |
| DebugPanels.FirstIndex | Sources/Support/DebugPanel/DebugPanel.swift:60 | `firstIndex`: none exactly when no row has the key, and otherwise a row with the key. |
| DebugPanels.DebugPanel.constructor | Sources/Support/DebugPanel/DebugPanel.swift:39-41 | No rows, no buttons, no panel on screen, and none presented yet. |
| DebugPanels.DebugPanel.Present | Sources/Support/DebugPanel/DebugPanel.swift:43-56 | While a panel is on screen nothing happens. Otherwise one more panel is presented. The rows and buttons are unchanged. |
| DebugPanels.DebugPanel.Dismiss | Sources/Support/DebugPanel/DebugPanel.swift:68-71 | The panel leaves the screen, and nothing else changes. |
| DebugPanels.DebugPanel.ControllerReleased | Sources/Support/DebugPanel/DebugPanel.swift:37 | The weak controller reference going nil on a release other than `dismiss()` also counts the panel off screen. |
| DebugPanels.PresentTwice | Sources/Support/DebugPanel/DebugPanel.swift:37-56 | Presenting twice presents one panel, or two when the controller was released in between. |
| DebugPanels.DebugPanel.Add | Sources/Support/DebugPanel/DebugPanel.swift:58-66 | A row with the same key is replaced at its index; a new key is appended. |
| DebugPanels.DebugPanel.AddValue | Sources/Support/DebugPanel/DebugPanel.swift:73-75 | The same, for a fixed optional string. |
| DebugPanels.DebugPanel.AddButton | Sources/Support/DebugPanel/DebugPanel.swift:77-79 | Buttons are always appended. |
| DebugPanels.UpsertReplacesInPlace | Sources/Support/DebugPanel/DebugPanel.swift:60-62 | For an existing key, the count is unchanged, the new row takes the old index and every other row stays. |
| DebugPanels.UpsertAppendsNewKey | Sources/Support/DebugPanel/DebugPanel.swift:63-64 | A new key is appended after unchanged rows. |
| DebugPanels.UpsertKeepsKeysUnique | Sources/Support/DebugPanel/DebugPanel.swift:58-66 | Keys stay unique, and the key is present with the new row. |
| DebugPanels.UpsertKeys | Sources/Support/DebugPanel/DebugPanel.swift:58-66 | The key set grows by exactly the new key. |
| DebugPanels.DisplayedRows | Sources/Support/DebugPanel/DebugPanel.swift:126-135 | The bundle identifier row comes first, then the registered rows in order. |
| DebugPanels.DisplayedButtons | Sources/Support/DebugPanel/DebugPanel.swift:137-140 | The registered buttons in order, then "Open logs". |
| DebugPanels.ValueText | Sources/Support/DebugPanel/DebugPanel.swift:241-246 | "<data>" for over 64 characters or a line break. "(nil)" for missing or empty. Otherwise the value. Never over 64 characters and never a line break. |
| DebugPanels.ShownAsIs | Sources/Support/DebugPanel/DebugPanel.swift:241-246 | A value is shown as it is exactly when it is non-empty, at most 64 characters and on one line. |
| DebugPanels.ValueAlpha | Sources/Support/DebugPanel/DebugPanel.swift:248 | Dimmed to 0.5 exactly for a missing or empty value. |
| DebugPanels.CopyButton.OpensViewer | Sources/Support/DebugPanel/DebugPanel.swift:264 | A tap opens the viewer exactly when the title is "View". |
| DebugPanels.CopyButton.SetCopyButtonText | Sources/Support/DebugPanel/DebugPanel.swift:212-229 | As written: hidden exactly for an empty value. "View" at 64 wide for a long value. Otherwise 16 wide, with the image (the title is left as it was) or "Copy". |
| DebugPanels.CopyButton.SetCopyButtonTextIntended | Sources/Support/DebugPanel/DebugPanel.swift:212-229 | Corrected: the viewer opens exactly when the last value was over 64 characters. |
| DebugPanels.LongThenShortAsWritten | Sources/Support/DebugPanel/DebugPanel.swift:221-228 | As written, a long value followed by a short one still opens the viewer. |
| DebugPanels.LongThenShortIntended | Sources/Support/DebugPanel/DebugPanel.swift:221-228 | Corrected, the short value is copied. |
| DebugPanels.RowView.constructor | Sources/Support/DebugPanel/DebugPanel.swift:235 | The label reads "..." until the provider reports. |
| DebugPanels.RowView.Report | Sources/Support/DebugPanel/DebugPanel.swift:239-249 | The raw value is kept and shown by `ValueText`/`ValueAlpha`. The copy button is hidden exactly for an empty value. As written, it opens the viewer for a long value, and also for a short one after an earlier "View" when the image is used. |
| DebugPanels.RowView.ReportIntended | Sources/Support/DebugPanel/DebugPanel.swift:239-249 | Corrected: the same display, but the viewer opens exactly for a long value. |
| DebugPanels.RowView.TapCopy | Sources/Support/DebugPanel/DebugPanel.swift:263-277 | "View" opens the viewer on the raw value, titled with the key. Otherwise the value is copied. |
| DebugPanels.ReportThenTap | Sources/Support/DebugPanel/DebugPanel.swift:231-277 | After the first report on a new row, a long value opens whole in the viewer and a short one is copied. |
| DebugPanels.RowLongThenShortAsWritten | Sources/Support/DebugPanel/DebugPanel.swift:212-277 | As written, a row reporting a long value and then a short one opens the viewer on the short one when tapped. |
| DebugPanels.RowLongThenShortIntended | Sources/Support/DebugPanel/DebugPanel.swift:212-277 | Corrected, the same row copies the short value. |
| DebugLogs.LevelLabel | Sources/Support/DebugPanel/DebugPanelLogHandler.swift:25-28 | The raw value uppercased and cut to three characters. |
| DebugLogs.LevelLabels | Sources/Support/DebugPanel/DebugPanelLogHandler.swift:25-28 | TRA, DEB, INF, NOT, WAR, ERR, CRI. |
| DebugLogs.LevelLabelsDistinct | Sources/Support/DebugPanel/DebugPanelLogHandler.swift:25-28 | The label determines the level. |
| DebugLogs.Joined | Sources/Support/DebugPanel/DebugPanelLogHandler.swift:53 | `joined(separator:)`: empty for no parts, the part itself for one. |
| DebugLogs.Prettify | Sources/Support/DebugPanel/DebugPanelLogHandler.swift:49-54 | Nil exactly for empty metadata. A single entry gives "key=value". |
| DebugLogs.PrettifyConcat | Sources/Support/DebugPanel/DebugPanelLogHandler.swift:49-54 | Two groups of entries give the two strings joined by one space. |
| DebugLogs.Line | Sources/Support/DebugPanel/DebugPanelLogHandler.swift:29 | Date, level, glyph, message, then " " and the metadata only when there is any. |
| DebugLogs.Newest | Sources/Support/DebugPanel/DebugPanelLogHandler.swift:31-34 | The newest n lines, in order. |
| DebugLogs.DebugPanelLogHandler.Log | Sources/Support/DebugPanel/DebugPanelLogHandler.swift:15-35 | Over 1000 lines, the oldest goes, then the line is appended. The handler's own metadata and level are unchanged. |
| DebugLogs.DebugPanelLogHandler.MetadataValue | Sources/Support/DebugPanel/DebugPanelLogHandler.swift:37-40 | The subscript reads the metadata entry. |
| DebugLogs.DebugPanelLogHandler.constructor | Sources/Support/DebugPanel/DebugPanelLogHandler.swift:46-47 | No lines, no metadata, level `trace`. |
| DebugLogs.DebugPanelLogHandler.SetMetadataValue | Sources/Support/DebugPanel/DebugPanelLogHandler.swift:41-43 | Writing a key reads back the value, nil removes it, and no other key changes. |
| DebugLogs.LogKeepsNewest | Sources/Support/DebugPanel/DebugPanelLogHandler.swift:31-34 | One more line keeps the buffer equal to the newest 1001 lines of everything logged. |
| DebugLogs.LogAll | Sources/Support/DebugPanel/DebugPanelLogHandler.swift:15-35 | A handler that logged the messages keeps exactly the lines of the newest 1001. |
| DebugLogs.LinesOf | Sources/Support/DebugPanel/DebugPanelLogHandler.swift:29 | One line per message, each formatted by `Line` without metadata. |
| ObservableModules.Apply | Sources/UI/Module/ObservableModule.swift:63-82 | Each setter's update changes its own field only. |
| ObservableModules.ApplyAllConcat | Sources/UI/Module/ObservableModule.swift:63-82 | Applying queued updates in two batches equals applying them at once. |
| ObservableModules.StartState | Sources/UI/Module/ObservableModule.swift:44-52 | The requested state if given. Otherwise `updating` exactly over a non-empty `Emptyable` result and `loading` over any other, never `notLoading`. |
| ObservableModules.RunUpdates | Sources/UI/Module/ObservableModule.swift:41-61 | Clear the error, set the start state, publish the result or the error, then set `notLoading`. |
| ObservableModules.ObservableModule.constructor | Sources/UI/Module/ObservableModule.swift:20-23 | The initial value and state, with no error; the state defaults to `notLoading`. |
| ObservableModules.ObservableModule.SetResult | Sources/UI/Module/ObservableModule.swift:63-68 | Enqueues the result, and nothing shows until the main actor runs. |
| ObservableModules.ObservableModule.Perform | Sources/UI/Module/ObservableModule.swift:41-61 | Enqueues the run's updates. The start state is chosen from the result at call time. |
| ObservableModules.ObservableModule.Drain | Sources/UI/Module/ObservableModule.swift:63-82 | The main actor applies the queue in order and empties it. |
| ObservableModules.RunOutcome | Sources/UI/Module/ObservableModule.swift:41-61 | During the run, the start state with no error. After it, `notLoading`, with the new result and no error, or the old result and the error. |
| ObservableModules.NewModule | Sources/UI/Module/ObservableModule.swift:20-23 | A module made without a loading state starts `notLoading`, with the initial value and no error. |
| ObservableModules.PerformAndSettle | Sources/UI/Module/ObservableModule.swift:41-61 | A run that settles ends `notLoading` with the outcome published. |
| ObservableModules.IsNotEmpty | Sources/Foundation/Protocols/Emptyable.swift:19-21 | `isNotEmpty` is true exactly for a non-empty collection. |
| Collections.OptionalSubscript | Sources/Foundation/Extensions/Array+extensions.swift:11-16 | Nil exactly out of bounds, and otherwise the element. |
| Collections.OptionalSubscriptReachesAll | Sources/Foundation/Extensions/Array+extensions.swift:11-16 | Every element, and only the elements, is reached by some index. |
| Collections.Chunk | Sources/Foundation/Extensions/Array+extensions.swift:18-22 | For a positive size, the chunks concatenate to the array. All have `size` elements except the last, which has 1 to `size`, and there is no chunk exactly for an empty array. A negative size gives no chunk. |
| Collections.ChunkFrom | Sources/Foundation/Extensions/Array+extensions.swift:18-22 | The stride from `start`. For a positive size, the chunks concatenate to the rest of the array. All are `size` long except the last, which has 1 to `size` elements, and there is none exactly when `start` is the count. A negative size gives none. |
| Collections.ChunkCount | Sources/Foundation/Extensions/Array+extensions.swift:18-22 | The number of chunks is the count divided by `size`, rounded up. |
| Collections.PaddedRow | Sources/UI/Assets/Collection/GridView.swift:50-61 | A row of exactly `columns` cells: the items, then the fillers. |
| Collections.PadRows | Sources/UI/Assets/Collection/GridView.swift:41-47 | One padded row per row, in order. |
| Collections.PresentPadded | Sources/UI/Assets/Collection/GridView.swift:56-59 | Dropping the fillers of a padded row gives the row back. |
| Collections.Grid | Sources/UI/Assets/Collection/GridView.swift:29-39 | One row per chunk, and every row exactly `columns` wide. No row for negative columns. For positive columns, no row exactly for no items. |
| Collections.GridKeepsOrder | Sources/UI/Assets/Collection/GridView.swift:43-61 | Reading the grid row by row, skipping fillers, gives the items in order. |
| DictionaryMapping.Rekeyed | Sources/Foundation/Extensions/Dictionary+extensions.swift:11-18 | Keys are exactly the produced keys. There are no more entries than inputs, and none exactly for no input. |
| DictionaryMapping.Produced | Sources/Foundation/Extensions/Dictionary+extensions.swift:13-14 | The handler's pair for each entry, in iteration order. |
| DictionaryMapping.Inserted | Sources/Foundation/Extensions/Dictionary+extensions.swift:13-16 | The inserted keys are exactly the pairs' keys. There are no more entries than pairs, and none exactly when there are no pairs. |
| DictionaryMapping.LaterOverwrites | Sources/Foundation/Extensions/Dictionary+extensions.swift:15 | A pair whose key no later pair repeats is what the dictionary holds for that key. |
| DictionaryMapping.LaterEntryWins | Sources/Foundation/Extensions/Dictionary+extensions.swift:13-16 | Of two entries producing the same key, the later one in iteration order wins. |
| DictionaryMapping.Map | Sources/Foundation/Extensions/Dictionary+extensions.swift:11-18 | The loop builds `Rekeyed`. |
| QueryParameters.WithParameter | Sources/Foundation/Extensions/URL+extensions.swift:16-17 | Exactly one item has the key; it is the last and carries the value. The other items are kept in order. |
| QueryParameters.WithParameterIdempotent | Sources/Foundation/Extensions/URL+extensions.swift:16-17 | Setting the same parameter twice is setting it once. |
| QueryParameters.WithQueryParameter | Sources/Foundation/Extensions/URL+extensions.swift:11-23 | The rebuilt URL, or the URL unchanged when it does not split into components or the new components make no URL. |
| QueryParameters.SetParameter | Sources/Foundation/Extensions/URL+extensions.swift:16-19 | The rest of the components is unchanged, and missing query items count as none before the parameter is set. |
| QueryParameters.ResultHasParameter | Sources/Foundation/Extensions/URL+extensions.swift:11-23 | The new URL's query holds the parameter once, last, with the other items as they were. |
| QueryParameters.WithQueryParameterIdempotent | Sources/Foundation/Extensions/URL+extensions.swift:11-23 | Appending the same parameter twice gives the URL appending it once gives. |
| QueryParameters.UrlVariable.AppendQueryParameter | Sources/Foundation/Extensions/URL+extensions.swift:11-23 | The mutating form replaces the URL by `WithQueryParameter`. |
| QueryParameters.UrlVariable.AppendingQueryParameter | Sources/Foundation/Extensions/URL+extensions.swift:25-29 | The copying form returns that URL and leaves the variable unchanged. |
| Strings.FirstUppercased | Sources/Foundation/Extensions/String+extension.swift:24 | "" stays "". Otherwise the uppercased first character followed by the rest unchanged. |
| Strings.FirstUppercasedIdempotent | Sources/Foundation/Extensions/String+extension.swift:24 | With a stable one-to-one case mapping, applying it twice is applying it once. |
| Strings.StrippedHtml | Sources/Foundation/Extensions/String+extension.swift:26-28 | Every match of `<[^>]+>` removed. The other characters keep their order, and no match is left. |
| Strings.NoTagUnchanged | Sources/Foundation/Extensions/String+extension.swift:26-28 | A string without a match comes back unchanged. |
| Strings.StrippedHtmlIdempotent | Sources/Foundation/Extensions/String+extension.swift:26-28 | Stripping twice is stripping once. |
| Strings.NoOpenBracketUnchanged | Sources/Foundation/Extensions/String+extension.swift:26-28 | A string without '<' is unchanged. |
| Strings.EmptyBracketsKept | Sources/Foundation/Extensions/String+extension.swift:27 | "<>" is kept. |
| Strings.BoldCase | Sources/Foundation/Extensions/String+extension.swift:27 | "<b>x</b>" becomes "x". |
| Strings.ClosingTagRemoved | Sources/Foundation/Extensions/String+extension.swift:27 | "</b>" is one match, and goes. |
| Hexadecimal.HexBytes | Sources/Notifications/Extensions/String+extensions.swift:14-20 | The bytes of the matches, one per match of one or two digits, never more than the characters. |
| Hexadecimal.DigitValue | Sources/Notifications/Extensions/String+extensions.swift:17 | A digit of either case is worth less than 16. |
| Hexadecimal.NoBytesIffNoDigit | Sources/Notifications/Extensions/String+extensions.swift:22-24 | No byte exactly when there is no hex digit. |
| Hexadecimal.HexadecimalData | Sources/Notifications/Extensions/String+extensions.swift:11-27 | The enumeration gives `HexBytes`, or nil exactly when that is empty. |
| Hexadecimal.ByteCount | Sources/Notifications/Extensions/String+extensions.swift:14-20 | The byte count is the sum over the runs of digits of half the run's length, rounded up. |
| Hexadecimal.Format02X | Sources/Notifications/NotificationManager.swift:94 | `%02X` gives two uppercase digits. |
| Hexadecimal.TokenRoundTrip | Sources/Notifications/NotificationManager.swift:94 | Reading the `%02X` token string back gives the bytes. |
| Hexadecimal.TokenString | Sources/Notifications/NotificationManager.swift:94 | The joined `%02X` forms are two characters per byte. |
| Hexadecimal.TokenDecodes | Sources/Notifications/NotificationManager.swift:54 | `hexadecimal` of a non-empty token's string gives the token. |
| Hexadecimal.CaseInsensitive | Sources/Notifications/Extensions/String+extensions.swift:14 | Uppercasing the letters changes no byte. |
| Colours.InitHex | Sources/UI/Helpers/Extensions/UIKit/UIColor+helpers.swift:13-20 | The channels are in 0..255, and alpha is passed through, 1 by default. |
| Colours.ShiftedChannels | Sources/UI/Helpers/Extensions/UIKit/UIColor+helpers.swift:15-17 | Channels in range are read back from the value shifting makes of them. |
| Colours.Masked | Sources/UI/Helpers/Extensions/UIKit/UIColor+helpers.swift:37-42 | The masked channels are in 0..255, with alpha 1. |
| Colours.MaskedChannels | Sources/UI/Helpers/Extensions/UIKit/UIColor+helpers.swift:37-42 | Channels in range are read back by masking. |
| Colours.Trimmed | Sources/UI/Helpers/Extensions/UIKit/UIColor+helpers.swift:23 | White space is cut from both ends. |
| Colours.Normalised | Sources/UI/Helpers/Extensions/UIKit/UIColor+helpers.swift:23-27 | Trimmed, uppercased, one '#' removed, never longer. |
| Colours.InitHexString | Sources/UI/Helpers/Extensions/UIKit/UIColor+helpers.swift:22-43 | Not six characters gives black. Otherwise the channels are masked out of the scanned value. |
| Colours.PaddedSpelling | Sources/UI/Helpers/Extensions/UIKit/UIColor+helpers.swift:23-27 | " #FF8800\n" reads as "FF8800". |
| Colours.LowercaseSpelling | Sources/UI/Helpers/Extensions/UIKit/UIColor+helpers.swift:23-27 | "#ff8800" reads as "FF8800". |
| Colours.PlainSpelling | Sources/UI/Helpers/Extensions/UIKit/UIColor+helpers.swift:23-27 | "FF8800" reads as itself. |
| Colours.SixDigitChannels | Sources/UI/Helpers/Extensions/UIKit/UIColor+helpers.swift:34-42 | With a scanner that reads the digits, red, green and blue are the three digit pairs in order. |

## Left out

- UIKit and SwiftUI rendering are not modelled: views, layout, animation, the pasteboard, alerts, the viewer and the button actions. A navigation controller is its stack of screens, and UIKit calls are recorded, not performed.
- Weak references are not modelled: the hash table of children and the weak parent are strong here. `deinit` is an explicit call (`Deinit`). DebugPanel's weak controller reference going nil is an explicit call (`ControllerReleased`).
- The order of a coordinator's children is not modelled as the source has it. `childCoordinators` is an `NSHashTable`, which promises no order. The model keeps insertion order, and `TopCoordinator` (`children.last`) and inward bubbling (`Bubble`, `BubbleFunc`) follow that order.
- The `print` warnings of `DefaultCodable` and `ObservableModule` are console output and are not modelled.
- Coordination.Coordinators.ResetStack: requires the node to have a parent or its own controller. On a parentless node without a controller the source never returns (see Findings), which a terminating method cannot express.
- Asynchronous hops are taken as immediate: `handle(url:)`'s main-queue send, and the close button attached 100 ms later. `ObservableModule`'s main-actor setters are a queue that `Drain` applies.
- Foreign parsers and engines are parameters:
  - `URL(string:)`, `URLComponents` and its `url`;
  - `Scanner.scanHexInt64`;
  - `Double(_:)`;
  - the uppercasing of `firstUppercased`;
  - the date description;
  - the notification's user info, as a JSON object.
- Strings are sequences of characters, not grapheme clusters. Colour strings and level names are uppercased by the ASCII mapping.
- `UIColor`'s division by 255 into floating point is not modelled, and neither are `hexString`, `adjustBrightness` and `brightness`.
- Coordination.Coordinators.Show: the `.custom` transition has no branch in the switch, so it is excluded by `CanShow`.
- Coordination.Coordinators.Show: the view-controller factories `displayViewController` and `displayHostingController` and their retained associated objects are not modelled beyond the `show` they call.
- Coordination.Coordinators.TopCoordinator, Coordination.Coordinators.RootCoordinator and the teardown carry a ghost fuel bound. A cycle of parent or child links is outside the model.
- The `AnyPublisher` helpers that start or bubble on each event are not modelled. They call the modelled operations.
- `perform(_:)` with a closure or a `Publisher` is not modelled separately. It is `perform(withLoadingState: nil, ...)`, which is modelled.
- The background handler's `setTaskCompleted` and the real `BGTaskScheduler` are not modelled; the manager's calls into it are recorded. Logger messages are not modelled.
- The log handler's static `logLines` shared between handlers is a field of one handler. The metadata dictionary's iteration order is the order of a sequence.
- `String.random`, `toJSONString` and `isValidEmail` are outside the core.
- `unregisterRoutes`, used by a routing test, is not part of the source shown, and `handle(launchOptions:)` is UIKit input.
- Routing.Published: subscribers that join after a route was sent are not modelled separately. `share()` delivers to current subscribers only.

## Findings

| source | as written | input that shows it | evidently intended | confidence | as-written member | corrected member |
|---|---|---|---|---|---|---|
| Sources/Codable/Convertor.swift:51-53 | With differing return and value types, the return type is never decoded, even after the value type fails | `"price": 5.11` with a String-to-Double convertor gives 0 | 5.11, as the convertor test expects: try the return type before the default | not executed | Convertors.DifferingTypesLoseTheValue | Convertors.IntendedRoundTrip |
| Sources/Support/DebugPanel/DebugPanel.swift:224-225 | On iOS 13 and later the short-value branch sets the image but leaves an earlier "View" title | A row reporting a 65-character value, then "ok": tapping opens the viewer instead of copying | The short branch resets the title, so a short value is copied | not executed | DebugPanels.RowLongThenShortAsWritten | DebugPanels.RowLongThenShortIntended |
| Sources/Coordination/BaseCoordinator.swift:144 | A reset sets `parentCoordinator = rootCoordinator`, and a parentless coordinator is its own root, so it becomes its own parent. Without its own navigation controller, the getter then asks itself for one forever | A new coordinator with no parent and no controller shows a screen with `.reset` | The root keeps no parent, so the getter creates its controller | not executed | CoordinatorTree.ParentlessResetNeverResolves | CoordinatorTree.ReparentedIntendedResolves |
