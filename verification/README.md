# Creek Service start-up registries, modelled in Dafny

This project models the part of Creek Service that runs when a service
starts: resolving Java types against registries, registering resource
handlers, collecting extension options, initialising extension providers,
and building the service context. It covers three generations of that code:

- **current**: the subtype-aware map; the component model built on it, where
  each registration goes to whichever provider is on top of the extension
  initialisation stack; the option registry that resolves through
  `getOrSuper`; and the `Extensions` registry.
- **`org.creekservice` context builder**: it drives the api `Creek`. That
  means the earlier `api.ComponentModel`, with its settable "current source"
  slot, and the exact-lookup `api.Options`.
- **legacy `org.creek`**: the context builder that works with extension
  builders, the legacy `Context`, and the non-reducing `context.api.Model`.

Java types are class names (`TypeId = string`). `Class.isAssignableFrom` is an
abstract relation `sub(a, b)`, meaning "instances of `a` are assignable to
`b`". Lemmas that need it to be a partial order say so (`PartialOrder`).
Sorting by class name uses the lexicographic order of `String.compareTo`
(`StringOrder`).

Every mutable registry is an immutable datatype, and every operation is a
function that returns the new state together with a `Result`. A thrown
exception is an `Err` carrying the exception's kind and payload. Provider
and builder callbacks are data:

- the api calls they make, in order: nested `ensureExtension`,
  `addResource`, option reads;
- then what they hand back: an extension, `null`, or a throw.

| file | module | models |
|---|---|---|
| types.dfy | `Types` | shared values: `Option`, `Result`, extensions, options, resources, clocks |
| string_order.dfy | `StringOrder` | `String.compareTo` order, sorted listing of a set of names |
| subtype_aware_map.dfy | `SubTypeAwareMap` | `SubTypeAwareMap`: `put`, `find`, `removeSuperTypes`, `getOrSub`, `getOrSuper` |
| component_model.dfy | `ComponentModel` | `component.model.ComponentModel` |
| api_component_model.dfy | `ApiComponentModel` | `api.ComponentModel` |
| context_model.dfy | `ContextModel` | `context.api.Model` |
| options_registry.dfy | `OptionsRegistry` | `options.Options` |
| api_options.dfy | `ApiOptions` | `api.Options` |
| extensions.dfy | `Extensions` | `Extensions` |
| extension_list.dfy | `ExtensionList` | both builders' `createExtensions` grouping, clash check and sort |
| service_context_builder.dfy | `ServiceContextBuilder` | `org.creekservice` `ContextBuilder` |
| creek_context_builder.dfy | `CreekContextBuilder` | `org.creek` `ContextBuilder` |
| creek_context.dfy | `CreekContext` | `org.creek` `Context` |

The `org.creekservice` builder imports the api `Creek` and calls `model()`,
`options()` and `initializing(..)` on it (ContextBuilder.java:42, 104, 138,
187-190). Two classes could stand behind those calls:

- the api `Creek`, which the builder imports. It holds an `api.Options`. Its
  registry is `component.model.ComponentModel`, which has no `initializing`
  method, and it reaches that registry through `components().model()`, not
  `model()`.
- `context.api.Creek`, which offers exactly `model()`, `options()` and
  `initializing(..)`, over a `context.api.Model` and a `context.api.Options`.
  The builder's own tests mock these three classes.

The source therefore does not fit together in one place. The model follows the
import. It uses the one registry of the api package that has `initializing`,
`api.ComponentModel`, together with `api.Options`. `context.api.Options` is
not part of this model. `context.api.Model` is modelled on its own, as
`ContextModel`.

The newer `component.model.ComponentModel` is modelled together with
`Extensions`, whose initialisation stack supplies its registering provider.

## Model

| member | source | states |
|---|---|---|
| `StringOrder.SortedElements` | api/src/main/java/org/creekservice/internal/service/api/util/SubTypeAwareMap.java:104-107 | listing a set of class names gives each name exactly once, and the list is strictly increasing in `String.compareTo` order |
| `SubTypeAwareMap.RemoveSuperTypes` | api/src/main/java/org/creekservice/internal/service/api/util/SubTypeAwareMap.java:111-119 | survivors are candidates; no survivor is a supertype of another survivor; every dropped candidate is a supertype of some other candidate |
| `SubTypeAwareMap.SurvivorBelow` | api/src/main/java/org/creekservice/internal/service/api/util/SubTypeAwareMap.java:111-119 | in a partial order every candidate has a survivor below it, so a non-empty candidate set never reduces to nothing |
| `SubTypeAwareMap.ReductionCharacterised` | api/src/main/java/org/creekservice/internal/service/api/util/SubTypeAwareMap.java:87-98 | in a partial order the reduction is empty exactly when there are no candidates, and it is a single class exactly when one candidate is below all the others |
| `SubTypeAwareMap.Put` | api/src/main/java/org/creekservice/internal/service/api/util/SubTypeAwareMap.java:45-48 | `put` stores the value under the key, overwriting any earlier value without complaint, and leaves every other entry alone |
| `SubTypeAwareMap.Find` | api/src/main/java/org/creekservice/internal/service/api/util/SubTypeAwareMap.java:80-109 | an exact key wins; any value found belongs to the key or a related class; an ambiguity names, sorted and each once, exactly the survivors of the reduction, at least two of them |
| `SubTypeAwareMap.GetOrSub` | api/src/main/java/org/creekservice/internal/service/api/util/SubTypeAwareMap.java:65-67 | an exact key wins. Any value found belongs to the key or a registered supertype of it. An ambiguity names at least two registered supertypes, no two of them related |
| `SubTypeAwareMap.GetOrSuper` | api/src/main/java/org/creekservice/internal/service/api/util/SubTypeAwareMap.java:76-78 | an exact key wins. Any value found belongs to the key or a registered subtype of it. An ambiguity names at least two registered subtypes, no two of them related |
| `SubTypeAwareMap.FindOutcomes` | api/src/main/java/org/creekservice/internal/service/api/util/SubTypeAwareMap.java:87-109 | checked against a description that does not mention the reduction: empty exactly when nothing related is registered; the value of the related class below all others when there is one; an error exactly when related classes exist but none is below all the others |
| `SubTypeAwareMap.GetOrSubMostSpecific` | api/src/main/java/org/creekservice/internal/service/api/util/SubTypeAwareMap.java:65-67 | `getOrSub` answers the most specific registered supertype of the key; it answers empty exactly when no registered class is a supertype; it fails exactly when supertypes exist without a most specific one |
| `SubTypeAwareMap.GetOrSuperDeepest` | api/src/main/java/org/creekservice/internal/service/api/util/SubTypeAwareMap.java:76-78 | `getOrSuper` answers the exact entry, else the deepest registered subtype, since the same supertype-removing reduction is used; it answers empty exactly when no registered class is a subtype; it fails exactly when subtypes exist without a deepest one |
| `SubTypeAwareMap.AmbiguityOmitsCommonBase` | api/src/main/java/org/creekservice/internal/service/api/util/SubTypeAwareMap.java:99-107 | a common supertype of two named candidates is never itself named in the ambiguity |
| `ComponentModel.AddResource` | api/src/main/java/org/creekservice/internal/service/api/component/model/ComponentModel.java:59-77 | an exact duplicate fails first, naming the earlier provider. Adding when no provider is initialising fails next. A success adds exactly the new entry, attributed to the initialising provider, and keeps every earlier entry |
| `ComponentModel.Lookup` | api/src/main/java/org/creekservice/internal/service/api/component/model/ComponentModel.java:100-110 | `resourceExtension`: an exact entry wins. Any entry found is registered under the type or a supertype of it. An ambiguity becomes the undetermined-handler error for the type, listing at least two registered supertypes |
| `ComponentModel.HasType` | api/src/main/java/org/creekservice/internal/service/api/component/model/ComponentModel.java:82-86 | an exact entry is `true`; it fails exactly when the lookup is ambiguous |
| `ComponentModel.ResourceHandler` | api/src/main/java/org/creekservice/internal/service/api/component/model/ComponentModel.java:89-98 | a resolved handler belongs to the type or one of its registered supertypes; the only failures are an ambiguity or the unknown-type error listing every registered type |
| `ComponentModel.ResourceHandlerMostSpecific` | api/src/main/java/org/creekservice/internal/service/api/component/model/ComponentModel.java:101-111 | `resourceHandler` resolves to the most specific registered supertype; it fails with the unknown-type error exactly when none is registered, and with the ambiguity exactly when there is no most specific one |
| `ComponentModel.HasTypeAgreesWithResourceHandler` | api/src/main/java/org/creekservice/internal/service/api/component/model/ComponentModel.java:82-86 | `hasType` is true exactly when `resourceHandler` resolves and false exactly when it reports an unknown type; an ambiguity is the same error from both, never `false` |
| `ComponentModel.AddKeepsExactResolutions` | api/src/main/java/org/creekservice/internal/service/api/component/model/ComponentModel.java:71-77 | after a successful registration the new type resolves to its handler and every earlier type still resolves to its own |
| `ComponentModel.SubtypeAndSupertypeBothRegister` | api/src/main/java/org/creekservice/internal/service/api/component/model/ComponentModel.java:59 | a supertype and a subtype register in either order; each keeps its own handler; a class below the subtype resolves to the subtype's handler |
| `ApiComponentModel.Initializing` | api/src/main/java/org/creekservice/internal/service/api/ComponentModel.java:94-98 | `initializing` replaces the current-source slot and keeps every registration |
| `ApiComponentModel.AddResource` | api/src/main/java/org/creekservice/internal/service/api/ComponentModel.java:57-72 | an exact duplicate fails first, naming its source. An empty slot fails next. Success requires exactly a new type and a set slot, and adds only the new entry, attributed to the slot's source |
| `ApiComponentModel.HasType` | api/src/main/java/org/creekservice/internal/service/api/ComponentModel.java:77-81 | an exact entry is `true`; it fails exactly when the lookup is ambiguous |
| `ApiComponentModel.ResourceHandler` | api/src/main/java/org/creekservice/internal/service/api/ComponentModel.java:83-92 | an exact entry answers its handler; the only failures are an ambiguity or the unknown-type error listing the known types |
| `ApiComponentModel.Lookup` | api/src/main/java/org/creekservice/internal/service/api/ComponentModel.java:101-136 | an exact entry wins; an ambiguity names the type and at least two candidates with their sources |
| `ApiComponentModel.ResolutionMostSpecific` | api/src/main/java/org/creekservice/internal/service/api/ComponentModel.java:100-149 | resolution picks the most specific registered supertype. Having none is the unknown-type error listing the known types. Having several without a most specific one makes `hasType` fail |
| `ApiComponentModel.AmbiguityNamesUnrelatedSources` | api/src/main/java/org/creekservice/internal/service/api/ComponentModel.java:121-134 | an ambiguity names registered supertypes of the requested type, no two of them related, each paired with the source that registered it |
| `ApiComponentModel.HasTypeAgreesWithResourceHandler` | api/src/main/java/org/creekservice/internal/service/api/ComponentModel.java:77-92 | `hasType` holds exactly when `resourceHandler` resolves and is false exactly when it reports an unknown type; an ambiguity propagates as the same error |
| `ApiComponentModel.RegistrationWithinWindow` | api/src/main/java/org/creekservice/internal/service/api/ComponentModel.java:69-72 | a handler added while the slot holds `p` is attributed to `p` and resolves; after `initializing(empty)` every new registration is refused |
| `ContextModel.Lookup` | context/src/main/java/org/creekservice/internal/service/context/api/Model.java:94-116 | an exact entry wins. Otherwise, no registered supertype means absent, exactly one means its entry, and two or more is the multiple-handlers error. There is no most-specific reduction |
| `ContextModel.AddResource` | context/src/main/java/org/creekservice/internal/service/context/api/Model.java:52-70 | an exact duplicate, or a type with a single registered supertype, fails as already registered, naming the provider of the entry found. An ambiguous lookup propagates its error. Then an empty provider slot fails. It succeeds exactly when the type is new, has no registered supertype and a provider is initialising, and then adds the entry for that provider |
| `ContextModel.AddKeepsExactResolutions` | context/src/main/java/org/creekservice/internal/service/context/api/Model.java:65-69 | after a successful registration the new type resolves to its handler and every earlier registered type still resolves to its own |
| `ContextModel.HasType` | context/src/main/java/org/creekservice/internal/service/context/api/Model.java:72-77 | `hasType` is true exactly for an exact entry or a single registered supertype, and fails exactly when the lookup is ambiguous |
| `ContextModel.ResourceHandler` | context/src/main/java/org/creekservice/internal/service/context/api/Model.java:79-85 | an exact entry resolves to its handler; the unknown-type error arises exactly when neither the type nor any supertype is registered |
| `ContextModel.Initializing` | context/src/main/java/org/creekservice/internal/service/context/api/Model.java:87-91 | `initializing` replaces the current-provider slot and nothing else |
| `ContextModel.SubtypeOfRegisteredIsRefused` | context/src/main/java/org/creekservice/internal/service/context/api/Model.java:56-63 | once a type is registered, registering any subtype of it fails: as a duplicate naming that registration's provider when it is the only registered supertype, otherwise as the multiple-handlers error |
| `ContextModel.SupertypeAfterSubtypeAccepted` | context/src/main/java/org/creekservice/internal/service/context/api/Model.java:101-105 | inside a window, any new supertype of a registered type is accepted when no registered type is a supertype of it. Both then keep their own handlers |
| `OptionsRegistry.Get` | api/src/main/java/org/creekservice/internal/service/api/options/Options.java:65-74 | as written: removes the requested type from the unused set whatever the outcome. An exact hit answers its option. Any option found is registered under the type or a subtype of it. An ambiguity is the ambiguous-option error for the requested type |
| `OptionsRegistry.GetResolvesDeepestSubtype` | api/src/main/java/org/creekservice/internal/service/api/options/Options.java:69-73 | `get` answers the deepest registered subtype, is empty exactly when no registered class is a subtype of the request, and is ambiguous exactly when subtypes exist without a deepest one |
| `OptionsRegistry.AddThenGetExact` | api/src/main/java/org/creekservice/internal/service/api/options/Options.java:61-69 | an added option is unused; asking for its own class answers it and takes exactly it off the unused list |
| `OptionsRegistry.GetBySupertypeLeavesOptionUnused` | api/src/main/java/org/creekservice/internal/service/api/options/Options.java:67 | as written: `get(Base)` answers the option of the subclass but `unused()` still contains it |
| `OptionsRegistry.GetMarkingResolved` | api/src/main/java/org/creekservice/internal/service/api/options/Options.java:65-74 | the corrected `get`: the same answer, and it also removes the class of the option handed back from the unused set |
| `OptionsRegistry.GetMarkingResolvedMarksUsed` | api/src/main/java/org/creekservice/internal/service/api/options/Options.java:65-79 | in the corrected `get`, an option that is handed back leaves `unused()`, and every other unused option stays |
| `OptionsRegistry.GetMarkingResolvedBySupertype` | api/src/main/java/org/creekservice/internal/service/api/options/Options.java:65-79 | the corrected `get(Base)` on a registry holding one option of a subclass answers that option and leaves `unused()` empty |
| `ApiOptions.Add` | api/src/main/java/org/creekservice/internal/service/api/Options.java:47-63 | a duplicate concrete class fails and changes nothing; a success stores the option and marks its class unused, keeping unused within the registered classes. The `add` of `options.Options` is the same code and is modelled by this member |
| `ApiOptions.Get` | api/src/main/java/org/creekservice/internal/service/api/Options.java:65-70 | exact lookup: answers an option exactly when one is registered under the requested class, and it is the registered option of that class; the requested class leaves the unused set whether or not it is registered |
| `ApiOptions.Unused` | api/src/main/java/org/creekservice/internal/service/api/Options.java:72-75 | `unused()` holds exactly the registered options whose class is still unused; `options.Options` has the same `unused()` |
| `ApiOptions.GetMarksExactlyThatOptionUsed` | api/src/main/java/org/creekservice/internal/service/api/Options.java:66-75 | a `get` takes exactly the option it answered off the unused options, and changes nothing there when it answers empty |
| `ApiOptions.AddedOptionsAreUnusedUntilAskedFor` | api/src/main/java/org/creekservice/internal/service/api/Options.java:62-69 | an added option joins the unused options and is answered by its own class |
| `ApiOptions.NoSubtypeResolution` | api/src/main/java/org/creekservice/internal/service/api/Options.java:69 | a registered subclass never answers for its supertype, and such a lookup marks nothing used |
| `Extensions.CurrentlyInitialising` | api/src/main/java/org/creekservice/internal/service/api/extension/Extensions.java:62-66 | the initialising provider is the top of the stack, and there is none exactly when the stack is empty |
| `Extensions.EnsureByClass` | api/src/main/java/org/creekservice/internal/service/api/extension/Extensions.java:68-72 | a provider class that cannot be instantiated fails before anything else. Otherwise: the stack is restored, the registry only grows, an applied provider answers its cached extension, and a success leaves the provider applied with the answered extension |
| `Extensions.EnsureExtension` | api/src/main/java/org/creekservice/internal/service/api/extension/Extensions.java:82-105 | the stack afterwards equals the stack before, on success and on failure. The registry only grows. An applied provider answers its cached extension without running. A fresh success appends the extension last and records it as the provider's |
| `Extensions.Record` | api/src/main/java/org/creekservice/internal/service/api/extension/Extensions.java:89-103 | a null or a throw fails; a failure changes nothing; success happens exactly when the class is new, and it appends the extension and records it against the provider |
| `Extensions.RunSteps` | api/src/main/java/org/creekservice/internal/service/api/extension/Extensions.java:146-147 | a callback's calls leave the stack as they found it and only grow the registry |
| `Extensions.EnsureExtensionKeepsValid` | api/src/main/java/org/creekservice/internal/service/api/extension/Extensions.java:94-103 | ensuring keeps the registry invariant: concrete extension classes unique, and every applied provider's data among the extensions |
| `Extensions.EnsureAttributionAndOrder` | api/src/main/java/org/creekservice/internal/service/api/extension/Extensions.java:82-105 | every handler a provider's own callback registers is attributed to that provider, not to an outer or inner one; every provider it ensured finished first, so its extension comes earlier in iteration order |
| `Extensions.FailedCallbackRecordsNothing` | api/src/main/java/org/creekservice/internal/service/api/extension/Extensions.java:144-156 | a callback that makes no api call and then returns null or throws leaves the registry exactly as it was and reports the matching error |
| `Extensions.ClashRecordsNothing` | api/src/main/java/org/creekservice/internal/service/api/extension/Extensions.java:94-101 | an extension whose class another provider already returned fails, naming that provider, and records nothing |
| `Extensions.Iterate` | api/src/main/java/org/creekservice/internal/service/api/extension/Extensions.java:109-112 | iteration yields the extensions in the order they were recorded |
| `Extensions.Get` | api/src/main/java/org/creekservice/internal/service/api/extension/Extensions.java:116-127 | `get` answers the first extension, in iteration order, whose class is assignable to the request; it fails exactly when none is, listing the installed names in order |
| `Extensions.GetStableAsRegistryGrows` | api/src/main/java/org/creekservice/internal/service/api/extension/Extensions.java:116-127 | once `get` finds an extension it keeps answering the same one however the registry grows |
| `Extensions.EnsureIdempotent` | api/src/main/java/org/creekservice/internal/service/api/extension/Extensions.java:84-87 | ensuring an applied provider again, by instance or by class, changes nothing and answers the same extension |
| `ExtensionList.FirstRepeat` | context/src/main/java/org/creekservice/internal/service/context/ContextBuilder.java:171-176 | there is no repeat exactly when the classes are distinct; a repeat is the first position whose class occurred earlier |
| `ExtensionList.CheckClash` | context/src/main/java/org/creekservice/internal/service/context/ContextBuilder.java:198-204 | the grouping passes the list through exactly when no class occurs twice, and otherwise names a class that does |
| `ExtensionList.SortByClass` | context/src/main/java/org/creekservice/internal/service/context/ContextBuilder.java:177-182 | the sorted list has the same extensions as its input, ordered strictly by class name |
| `ExtensionList.SortedByClassUnique` | context/src/main/java/org/creekservice/internal/service/context/ContextBuilder.java:179-182 | two class-sorted lists with the same extensions are the same list |
| `ExtensionList.SortedIsDistinct` | context/src/main/java/org/creek/internal/service/context/Context.java:37-43 | a class-sorted list has no class and no extension twice |
| `ServiceContextBuilder.WithOptions` | context/src/main/java/org/creekservice/internal/service/context/ContextBuilder.java:102-106 | `with(options)` fails at once, not at build time, exactly when an option of that class was already given; otherwise the option joins the unused options |
| `ServiceContextBuilder.WithClock` | context/src/main/java/org/creekservice/internal/service/context/ContextBuilder.java:96-100 | `with(clock)` sets the explicit clock and changes nothing else |
| `Types.ChooseClock` | context/src/main/java/org/creekservice/internal/service/context/ContextBuilder.java:163-166 | the clock is the explicit one when given, else the accurate clock; the legacy builder chooses the same way |
| `ServiceContextBuilder.RunCalls` | context/src/main/java/org/creekservice/internal/service/context/ContextBuilder.java:187-188 | within a provider's window its registrations are attributed to it and earlier ones are kept. The options map is untouched. Only classes it reads leave the unused set. The only refusal is a duplicate registration |
| `ServiceContextBuilder.Initialize` | context/src/main/java/org/creekservice/internal/service/context/ContextBuilder.java:185-192 | the window is open only during the provider's `initialize` and is closed afterwards whatever happened; registrations are attributed to the provider; a null or a throw fails, naming it |
| `ServiceContextBuilder.InitializeAll` | context/src/main/java/org/creekservice/internal/service/context/ContextBuilder.java:168-170 | providers run in list order and the first failure aborts. Afterwards the window is closed, new registrations belong to the providers, and only classes some provider read leave the unused set. A success yields one extension per provider, in order |
| `ServiceContextBuilder.CreateExtensionList` | context/src/main/java/org/creekservice/internal/service/context/ContextBuilder.java:168-183 | every provider is initialised before the clash check, and an initialisation failure propagates unchanged; a success is sorted by class name, each class once |
| `ServiceContextBuilder.CreatedExtensions` | context/src/main/java/org/creekservice/internal/service/context/ContextBuilder.java:168-183 | a successful list holds exactly the extensions the providers returned; a clash names a class two providers both produced |
| `ServiceContextBuilder.Unsupported` | context/src/main/java/org/creekservice/internal/service/context/ContextBuilder.java:135-139 | collects exactly the resources whose class `hasType` rejects; the check fails only when some resource's lookup is ambiguous |
| `ServiceContextBuilder.CheckResourceTypes` | context/src/main/java/org/creekservice/internal/service/context/ContextBuilder.java:134-145 | passes exactly when every resource has a handler; otherwise one error carries every unsupported resource and the installed extensions |
| `ServiceContextBuilder.CheckOptionsUsed` | context/src/main/java/org/creekservice/internal/service/context/ContextBuilder.java:147-161 | passes exactly when no option is unused; otherwise one error carries all unused options and the installed extensions |
| `ServiceContextBuilder.Build` | context/src/main/java/org/creekservice/internal/service/context/ContextBuilder.java:108-120 | the phases run in a fixed order: handler, extensions, context, resource check, option check, resource initialisation; the first failure ends the trace; the context is built exactly when the extensions were; a success has the chosen clock and the sorted extensions, covers every resource and leaves no option unused |
| `ServiceContextBuilder.ResourcesResolveAfterBuild` | context/src/main/java/org/creekservice/internal/service/context/ContextBuilder.java:194-196 | after a successful build every resource of the component resolves to a handler, which the resource initialiser relies on |
| `ServiceContextBuilder.UnreadOptionsFailBuild` | context/src/main/java/org/creekservice/internal/service/context/ContextBuilder.java:147-161 | an option given to the builder that no provider reads makes the build fail |
| `ServiceContextBuilder.ExtensionOrderIndependentOfProviderOrder` | context/src/main/java/org/creekservice/internal/service/context/ContextBuilder.java:179-182 | reordering the providers does not change a successful extension list |
| `ServiceContextBuilder.RegistrationAttributedToProvider` | context/src/main/java/org/creekservice/internal/service/context/ContextBuilder.java:185-192 | a handler a provider registers during its `initialize` is attributed to it, while the same registration outside the window is refused |
| `ServiceContextBuilder.BuildAttributesRegistrations` | context/src/main/java/org/creekservice/internal/service/context/ContextBuilder.java:185-192 | after a build, registrations made during it belong to the providers, earlier ones are untouched, and the window is closed |
| `CreekContextBuilder.Unsupported` | context/src/main/java/org/creek/internal/service/context/ContextBuilder.java:132-140 | collects exactly the resources no builder handles |
| `CreekContextBuilder.New` | context/src/main/java/org/creek/internal/service/context/ContextBuilder.java:79-86 | construction records the builder names in order; it fails exactly when some resource is handled by no builder, with one error carrying every such resource and the names |
| `CreekContextBuilder.WithClock` | context/src/main/java/org/creek/internal/service/context/ContextBuilder.java:88-92 | `with(clock)` sets the explicit clock and changes nothing else |
| `CreekContextBuilder.WithOptions` | context/src/main/java/org/creek/internal/service/context/ContextBuilder.java:94-111 | every builder is offered the options, whatever earlier builders answered; it fails exactly when no builder accepts them; the offers are kept either way |
| `CreekContextBuilder.BuildEach` | context/src/main/java/org/creek/internal/service/context/ContextBuilder.java:154-155 | builders build in list order, one extension each; the first failing builder aborts and is named |
| `CreekContextBuilder.CreateExtensionList` | context/src/main/java/org/creek/internal/service/context/ContextBuilder.java:153-176 | a failing builder's error propagates; a class built twice fails naming it; a success is the builders' extensions sorted by class name |
| `CreekContextBuilder.Build` | context/src/main/java/org/creek/internal/service/context/ContextBuilder.java:113-118 | the uncaught-exception handler is installed before any extension is built; the context is built exactly when the extensions were, with the chosen clock |
| `CreekContextBuilder.BuildFailsOnlyOnFailureOrClash` | context/src/main/java/org/creek/internal/service/context/ContextBuilder.java:113-118 | a build fails exactly when some builder fails or, all succeeding, two built the same class; a clash names that class |
| `CreekContextBuilder.CreateFailsOnlyOnFailureOrClash` | context/src/main/java/org/creek/internal/service/context/ContextBuilder.java:153-176 | creating the extensions fails exactly when some builder fails or, all succeeding, two built the same class; a clash names that class |
| `CreekContextBuilder.ContextHoldsEveryBuiltExtension` | context/src/main/java/org/creek/internal/service/context/ContextBuilder.java:117 | after a successful build, asking the context for each builder's extension class answers that builder's extension |
| `CreekContextBuilder.ExtensionOrderIndependentOfBuilderOrder` | context/src/main/java/org/creek/internal/service/context/ContextBuilder.java:164-166 | reordering the builders does not change a successful extension list |
| `CreekContextBuilder.LastClockWins` | context/src/main/java/org/creek/internal/service/context/ContextBuilder.java:88-92 | the last clock given is the context's clock, the accurate clock is used when none was given, and giving a clock never changes whether a build succeeds |
| `CreekContext.Create` | context/src/main/java/org/creek/internal/service/context/Context.java:35-44 | construction fails exactly when two extensions share a concrete class, naming it; otherwise it keeps the clock and each extension under exactly its own class |
| `CreekContext.GetExtension` | context/src/main/java/org/creek/internal/service/context/Context.java:52-60 | answers exactly the extension under the requested class, and otherwise fails listing every installed extension |
| `CreekContext.ExtensionByExactClass` | context/src/main/java/org/creek/internal/service/context/Context.java:35-60 | for a context built from a list: a request answers exactly when some listed extension has exactly that class, and answers that extension; otherwise the error lists all of them |
| `CreekContext.SupertypeNotResolved` | context/src/main/java/org/creek/internal/service/context/Context.java:53-57 | an extension is not found under a supertype of its class |

## Left out

- `ServiceContextBuilder.RunCalls`: registrations go to `api.ComponentModel`, not `context.api.Model`. With `context.api.Model`, registering a subtype of an already registered type would be refused (`ContextModel.SubtypeOfRegisteredIsRefused`). Its `hasType`, and so the unsupported-resource check, would also fail rather than answer for a type with two registered supertypes, even when one of them is more specific than the other.
- Thread-identity guards (`throwIfNotOnCorrectThread`): each registry is modelled as having a single owner.
- Reflection:
  - `isAssignableFrom` is the abstract `sub` relation.
  - Provider instantiation is a catalogue of instantiable provider classes.
  - `codeLocation` and protection-domain lookups exist only in message text and are not modelled.
- Error message text: errors carry their kind and payload, not the formatted string. `api.ComponentModel`'s ambiguity payload lists the candidates with their sources in class-name order. The source formats them as `SimpleName (source)` strings sorted as text.
- The resource initialiser (`ResourceInitializer`), which is not part of this model. The build records its phase. `ServiceContextBuilder.ResourcesResolveAfterBuild` states what it needs from the model.
- `SystemEnvClockLoader`, which is not part of this model. The clock is whatever the supplier gives: the explicit clock, else the accurate clock. An environment override is not modelled.
- Installing the uncaught-exception handler, `System.exit` and logging: the build records only the install phase.
- Extension discovery (`ServiceLoader`): providers and builders arrive as an ordered list.
- Callbacks that catch an api exception and carry on: a refused api call aborts the callback.
- `Extensions.EnsureExtension`: the JVM's stack limit on nested `ensureExtension` calls is a depth bound `maxDepth`, and going past it is a `StackOverflow` error.
- `ExtensionList.CheckClash`: Java's grouping reports the class of a clashing group picked in `HashMap` order. The model reports the first class that repeats in list order. The contracts only promise that the class named occurs twice.
- `ServiceContextBuilder.Unsupported`: the contract states which resources are collected, not that they keep declaration order. The function keeps that order.
- `CreekContext.GetExtension`: the installed extensions are carried as a set, not in `HashMap` iteration order.
- `CreekContextBuilder.BuildEach`: a builder returning `null` fails like a throwing one. In Java it fails with a `NullPointerException` when the grouping reads its class.
- `StringOrder.SortedElements`: characters compare by code point. Java compares UTF-16 units, which differs only between supplementary characters and characters above the surrogate range.
- The `org.creekservice` `Context`, which only delegates. The builder's context is a clock plus the sorted extension list.
- The legacy `ContextTest` expects subtype and first-match lookup from `extension`. The code looks up the exact class only. The model follows the code (`CreekContext.SupertypeNotResolved`), and the test appears to target a different implementation.
- The option registry of `options.Options` is not used by either modelled builder. The builder that drives it is not part of this model.
- `ServiceContextBuilder.Build`: requires the option registry's invariant (`ApiOptions.Valid`): each option is keyed by its own class, and only registered classes are unused. Every registry reachable from an empty one through `add` and `get` keeps it. `ApiOptions.Unused` relies on the same invariant.
- Provider and builder callbacks are fixed data, in both builders: the calls a provider makes, what it returns, and what a legacy builder's `handles`, `with` and `build` answer. The component and api arguments passed to them are not modelled.
- A provider's own `ensureExtension` calls inside the `org.creekservice` builder: the model of that builder has providers register handlers and read options only. Nested initialisation is modelled in `Extensions`.

## Findings

| source | as written | input that shows it | evidently intended | confidence | as-written member | corrected member |
|---|---|---|---|---|---|---|
| api/src/main/java/org/creekservice/internal/service/api/options/Options.java:67 | `get(type)` removes the requested type from the unused set; an option found through a subtype stays unused | add an option of class `UserOptionsA`, a subtype of `BaseOptions`, then `get(BaseOptions)`. The option is returned, but `unused()` is still `{UserOptionsA}` and a build would reject it as unused | mark the concrete class of the option handed back as used; OptionsTest.java:115-122 expects `unused()` to be empty | not executed | `OptionsRegistry.GetBySupertypeLeavesOptionUnused` | `OptionsRegistry.GetMarkingResolvedBySupertype` |
