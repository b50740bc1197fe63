# Nashorn shared scope calls, adapter loading and loader policies, in Dafny

This project models five small pieces of the Nashorn JavaScript engine:

- **`SharedScopeCall`** — the cache key of a shared scope call and its hash. Many call sites that get (or call) the same scope variable share one static method. The model also covers that method's static signature, its parameter slot numbering, its call-site flags and its body. The method looks up the target scope with `getProto(depth)`, does the dynamic get and, for a call, the dynamic call. An optimistic method catches an `UnwarrantedOptimismException` and rethrows it stamped with the caller's program point.
- **`JavaAdapterClassLoader`** — how the loader of one generated adapter class resolves a class name. That covers the package check, the four visible Nashorn classes and parent-first delegation, and defining only the adapter itself. It also covers the module edges the loader adds.
- **`NashornLoader`** — `checkPackageAccess` and its five exempt packages, the fixed script permissions, and the normalisation of a class path into `file:` URLs.
- **`PropertyNode`** — the immutable IR node of an object-literal property, its copy-on-change setters, `getKeyName` and `accept`.
- **`ReverseJSObjectIterator`** — the countdown index of the reverse iterator.

Environment parts become oracles:

- the security manager and the package-access check of `Context`;
- the parent class loader;
- the file system's canonical path, absolute path and `isFile` answers;
- the visitor;
- the dynamic `getProto`, get and call operations.

The generated method is an abstract instruction list (`SharedScopeCalls.Insn`) run by a small stack interpreter. The lemma `GeneratedCodeImplementsReference` proves that the interpreter agrees with a direct definition of what the method is meant to do.

Files:

- `wrappers.dfy` — `Option`.
- `strings.dfy` — the Java string operations used: `lastIndexOf`, `replace`, `startsWith`, and `split` with its trailing-empty-string rule.
- `shared_scope_call.dfy`, `adapter_class_loader.dfy`, `nashorn_loader.dfy`, `property_node.dfy`, `reverse_iterator.dfy` — one module per source class.

Notes on the code:

- **Read direction.** When Nashorn is deployed as a named module, the loader makes Nashorn's module *read* the adapter's module, not the reverse, and exports two packages to it. Nashorn's module is the one that gains read access. On the class path Nashorn's module is unnamed and these calls add nothing.
- **Thresholds.** The default sharing threshold is 5 for calls and 100 for gets.
- **Non-optimistic methods.** These install no handler, so an unwarranted-optimism outcome from the underlying operation passes through unchanged. The model does not treat it as impossible.

## Model

| member | source | states |
|---|---|---|
| `SharedScopeCalls.NewSharedScopeCall` | src/main/java/org/openjdk/nashorn/internal/codegen/SharedScopeCall.java:96-105 | the new call satisfies the key invariant: `isCall` holds exactly when parameter types are given; the other fields are stored as passed and the method location and signature are not yet set |
| `SharedScopeCalls.SetClassAndName` | src/main/java/org/openjdk/nashorn/internal/codegen/SharedScopeCall.java:130-133 | only the unit class and method name are recorded: the call stays equal (as a cache key) to what it was, stays valid, and keeps its value type and memoised signature |
| `SharedScopeCalls.SameTypesIsEquality` | src/main/java/org/openjdk/nashorn/internal/codegen/SharedScopeCall.java:119 | the element-wise, in-order comparison of two type arrays holds exactly when the arrays are identical |
| `SharedScopeCalls.ArraysEqualsIsEquality` | src/main/java/org/openjdk/nashorn/internal/codegen/SharedScopeCall.java:119 | `Arrays.equals` on nullable type arrays: null equals only null, and two arrays are equal exactly when they are the same sequence |
| `SharedScopeCalls.EqualsIffSameKey` | src/main/java/org/openjdk/nashorn/internal/codegen/SharedScopeCall.java:113-123 | two calls are equal exactly when symbol, flags, return type, parameter types and optimism all agree; the value type is ignored |
| `SharedScopeCalls.EqualsIsEquivalence` | src/main/java/org/openjdk/nashorn/internal/codegen/SharedScopeCall.java:113-123 | `equals` is reflexive, symmetric and transitive |
| `SharedScopeCalls.EqualsImpliesSameHash` | src/main/java/org/openjdk/nashorn/internal/codegen/SharedScopeCall.java:108-123 | equal calls have equal 32-bit hash codes, whatever hash codes symbols and types have |
| `SharedScopeCalls.StaticSignature` | src/main/java/org/openjdk/nashorn/internal/codegen/SharedScopeCall.java:221-235 | the signature returns the return type; its parameters start with (ScriptObject, int, int); a get has exactly those three and a call has them followed by its parameter types in order (length n + 3) |
| `SharedScopeCalls.GetStaticSignature` | src/main/java/org/openjdk/nashorn/internal/codegen/SharedScopeCall.java:221-235 | the signature is computed once and stored; an already stored signature is returned and the call is left as it was |
| `SharedScopeCalls.SignatureIsMemoised` | src/main/java/org/openjdk/nashorn/internal/codegen/SharedScopeCall.java:222-234 | asking for the signature a second time returns the same signature and changes nothing more |
| `SharedScopeCalls.GenerateScopeCall` | src/main/java/org/openjdk/nashorn/internal/codegen/SharedScopeCall.java:146-219 | the declared method lives in the recorded unit class under the recorded name and has the memoised static signature; its body implements the reference semantics on every well-formed invocation and runtime; the only change to the call is the memoised signature; a call shape must have an object value type |
| `SharedScopeCalls.GenerateInvoke` | src/main/java/org/openjdk/nashorn/internal/codegen/SharedScopeCall.java:139-141 | a sharing call site emits a static invocation of the recorded unit class and method name with the memoised static signature; the only change to the call is the memoised signature |
| `SharedScopeCalls.InvokeTargetsDeclaredMethod` | src/main/java/org/openjdk/nashorn/internal/codegen/SharedScopeCall.java:139-155 | whichever of the two runs first, the static invocation names exactly the owner, name and signature of the declared method |
| `SharedScopeCalls.SlotWidthAppend` | src/main/java/org/openjdk/nashorn/internal/codegen/SharedScopeCall.java:191-195 | the slot width of two parameter lists one after the other is the sum of their widths |
| `SharedScopeCalls.ParamLoadsSlots` | src/main/java/org/openjdk/nashorn/internal/codegen/SharedScopeCall.java:191-195 | parameter i is loaded from slot 3 plus the slot widths of parameters 0..i-1 |
| `SharedScopeCalls.ParamSlotsIncrease` | src/main/java/org/openjdk/nashorn/internal/codegen/SharedScopeCall.java:191-195 | a later parameter starts only after every slot of an earlier one, including the second slot of a `long` or `double`, so no two parameters share a slot |
| `SharedScopeCalls.ScopeCallCodeShape` | src/main/java/org/openjdk/nashorn/internal/codegen/SharedScopeCall.java:158-200 | the method loads argument 0 and argument 1 and calls `getProto(depth)`, does one dynamic get with the get flags, and for a call converts, pushes an undefined `this`, loads every parameter from its slot and makes a dynamic call with 2 + n operands and the call flags |
| `SharedScopeCalls.GetFlagsRule` | src/main/java/org/openjdk/nashorn/internal/codegen/SharedScopeCall.java:183 | the get flags of an optimistic get are the call's flags with the optimistic bit set and every other bit kept; in every other case the get flags are the call's flags unchanged |
| `SharedScopeCalls.CallFlagsRule` | src/main/java/org/openjdk/nashorn/internal/codegen/SharedScopeCall.java:198 | the call flags of an optimistic call are the call's flags with the optimistic bit set and every other bit kept; otherwise they are unchanged |
| `SharedScopeCalls.HandlerIffOptimistic` | src/main/java/org/openjdk/nashorn/internal/codegen/SharedScopeCall.java:170-178 | a handler for `UnwarrantedOptimismException` is in the method exactly when the call is optimistic, and it is the last four instructions |
| `SharedScopeCalls.HandlerRestamps` | src/main/java/org/openjdk/nashorn/internal/codegen/SharedScopeCall.java:210-216 | the handler rethrows the caught exception with its return value kept and its program point replaced by argument 2 |
| `SharedScopeCalls.ExecScopeLoad` | src/main/java/org/openjdk/nashorn/internal/codegen/SharedScopeCall.java:158-161 | the method starts by replacing the scope argument with `getProto(scope, depth)`, with the depth taken from argument 1 |
| `SharedScopeCalls.FrameLayout` | src/main/java/org/openjdk/nashorn/internal/codegen/SharedScopeCall.java:191-195 | in the frame laid out by the static signature, slots 0, 1 and 2 hold scope, depth and program point, and every parameter load finds its own argument |
| `SharedScopeCalls.ExecCallPart` | src/main/java/org/openjdk/nashorn/internal/codegen/SharedScopeCall.java:187-201 | once the callee is fetched, the call part hands the dynamic call exactly the callee, an undefined `this` and the arguments in order |
| `SharedScopeCalls.GeneratedCodeImplementsReference` | src/main/java/org/openjdk/nashorn/internal/codegen/SharedScopeCall.java:146-219 | on every well-formed invocation and every runtime, the emitted instructions complete with the outcome of the intended operation: get from the depth-th prototype and, for a call, call the result; a failed optimism in an optimistic method is restamped with the caller's program point |
| `SharedScopeCalls.OptimisticMethodRestampsProgramPoint` | src/main/java/org/openjdk/nashorn/internal/codegen/SharedScopeCall.java:170-216 | an optimistic method returns a successful result unchanged and rethrows a failed optimism with argument 2 as its program point |
| `SharedScopeCalls.NonOptimisticMethodPassesThrough` | src/main/java/org/openjdk/nashorn/internal/codegen/SharedScopeCall.java:204-216 | a non-optimistic method installs no handler: its outcome is exactly the outcome of the underlying get or call |
| `JavaAdapterClassLoader.NewAdapterLoader` | src/main/java/org/openjdk/nashorn/internal/runtime/linker/JavaAdapterClassLoader.java:63-66 | the stored class name is the given name with every `/` replaced by `.`, so it contains no `/`; the class bytes are kept |
| `JavaAdapterClassLoader.NewAdapterLoaderIdempotent` | src/main/java/org/openjdk/nashorn/internal/runtime/linker/JavaAdapterClassLoader.java:64 | normalising an already normalised name changes nothing |
| `JavaAdapterClassLoader.FindClass` | src/main/java/org/openjdk/nashorn/internal/runtime/linker/JavaAdapterClassLoader.java:130-139 | a class is defined (in the loader's protection domain) exactly when the requested name equals the stored class name; every other name is not found |
| `JavaAdapterClassLoader.DelegatingLoad` | src/main/java/org/openjdk/nashorn/internal/runtime/linker/JavaAdapterClassLoader.java:116 | the inherited lookup asks the parent first: found there is the parent's class, a parent refusal is a security error, and a miss falls back to `findClass` |
| `JavaAdapterClassLoader.LoadClass` | src/main/java/org/openjdk/nashorn/internal/runtime/linker/JavaAdapterClassLoader.java:109-127 | a refusal never reaches the caller for a visible name; a Nashorn class is returned only for a visible name; "not found" only for a name other than the adapter's; a defined class is always the adapter itself |
| `JavaAdapterClassLoader.NoDotSkipsAccessCheck` | src/main/java/org/openjdk/nashorn/internal/runtime/linker/JavaAdapterClassLoader.java:111-115 | for a name without a dot the package-access check plays no part: any check gives the same result |
| `JavaAdapterClassLoader.DeniedPackageResolvesIffVisible` | src/main/java/org/openjdk/nashorn/internal/runtime/linker/JavaAdapterClassLoader.java:111-126 | when the package (the text before the last dot) is refused, the name still resolves, to Nashorn's own class, exactly when it is one of the four visible names; otherwise the same refusal is the outcome |
| `JavaAdapterClassLoader.GrantedIsDelegation` | src/main/java/org/openjdk/nashorn/internal/runtime/linker/JavaAdapterClassLoader.java:111-126 | when the package check passes or is skipped, loading is the inherited parent-first lookup, except that a parent refusal of a visible name is forgiven and yields Nashorn's own class |
| `JavaAdapterClassLoader.StoredNameNeverNotFound` | src/main/java/org/openjdk/nashorn/internal/runtime/linker/JavaAdapterClassLoader.java:78-80 | loading the adapter's own name is never "not found" |
| `JavaAdapterClassLoader.GenerateClass` | src/main/java/org/openjdk/nashorn/internal/runtime/linker/JavaAdapterClassLoader.java:74-83 | the protection domain must be present; the result is never "not found"; a class the loader defines is the adapter in that domain, and with access granted and the parent missing the adapter is always what is returned |
| `JavaAdapterClassLoader.SetUpModules` | src/main/java/org/openjdk/nashorn/internal/runtime/linker/JavaAdapterClassLoader.java:99-106 | setup keeps every existing edge; when Nashorn's module is named it adds the exports of `runtime` and `runtime.linker` from Nashorn to the adapter module and a read edge from Nashorn to it, and nothing else; when Nashorn sits on the class path (an unnamed module) the graph is unchanged |
| `JavaAdapterClassLoader.NoReverseEdges` | src/main/java/org/openjdk/nashorn/internal/runtime/linker/JavaAdapterClassLoader.java:99-106 | no export or read edge leaving the adapter module is added |
| `JavaAdapterClassLoader.SetUpModulesIdempotent` | src/main/java/org/openjdk/nashorn/internal/runtime/linker/JavaAdapterClassLoader.java:99-106 | setting up a second time adds nothing |
| `NashornLoader.CheckPackageAccess` | src/main/java/org/openjdk/nashorn/internal/runtime/NashornLoader.java:129-148 | nothing is checked exactly when the name has no dot or there is no security manager; otherwise the checked package is the text before the last dot, it is exempt exactly when it is one of the five packages, and any other package gets the manager's answer |
| `NashornLoader.CheckRefusesIff` | src/main/java/org/openjdk/nashorn/internal/runtime/NashornLoader.java:129-148 | the check refuses exactly when a manager is installed, the name's package is outside the five and the manager refuses that package |
| `NashornLoader.ExemptPackagesAlwaysPermitted` | src/main/java/org/openjdk/nashorn/internal/runtime/NashornLoader.java:135-142 | a class directly inside one of the five packages is never refused, whatever the manager says |
| `NashornLoader.GetPermissions` | src/main/java/org/openjdk/nashorn/internal/runtime/NashornLoader.java:151-157 | the collection holds every script permission and nothing else, whatever the code source |
| `NashornLoader.AccessPermissionInjective` | src/main/java/org/openjdk/nashorn/internal/runtime/NashornLoader.java:74-78 | two `accessClassInPackage.` permissions are equal only for the same package |
| `NashornLoader.PermissionsMatchExemptions` | src/main/java/org/openjdk/nashorn/internal/runtime/NashornLoader.java:72-79 | generated classes are granted `accessClassInPackage` for exactly the five packages the access check exempts |
| `NashornLoader.FileToURL` | src/main/java/org/openjdk/nashorn/internal/runtime/NashornLoader.java:192-212 | the URL is `file` with an empty host; its file part starts with `/`, holds no platform separator (when that is not `/`), and ends with `/` for a non-file; it is the canonical (else absolute) path with separators replaced, with exactly one `/` added in front when missing and exactly one at the end for a non-file (so the root directory `/` gives `//`) |
| `NashornLoader.FileToURLIdempotent` | src/main/java/org/openjdk/nashorn/internal/runtime/NashornLoader.java:199-206 | a regular file whose canonical path is already such a file part maps to the same URL again |
| `NashornLoader.PathToURLs` | src/main/java/org/openjdk/nashorn/internal/runtime/NashornLoader.java:177-183 | one URL per component of the path-separator split, in order, each the URL of that component |
| `NashornLoader.SinglePathOneURL` | src/main/java/org/openjdk/nashorn/internal/runtime/NashornLoader.java:177-183 | a class path without a path separator, even an empty one, gives exactly one URL, that of the whole path |
| `Strings.LastIndexOf` | src/main/java/org/openjdk/nashorn/internal/runtime/NashornLoader.java:130 | the result is -1 or an index holding the character, and no later index holds it |
| `Strings.PackageName` | src/main/java/org/openjdk/nashorn/internal/runtime/NashornLoader.java:130-134 | there is no package exactly when the name has no dot; otherwise it is the prefix followed by the last dot |
| `Strings.Replace` | src/main/java/org/openjdk/nashorn/internal/runtime/NashornLoader.java:199 | every occurrence of the character is replaced and every other character kept, position by position |
| `Strings.ReplaceIdempotent` | src/main/java/org/openjdk/nashorn/internal/runtime/linker/JavaAdapterClassLoader.java:64 | replacing twice is the same as replacing once |
| `Strings.JoinPieces` | src/main/java/org/openjdk/nashorn/internal/runtime/NashornLoader.java:178 | the pieces between separators, joined with the separator, are the original string |
| `Strings.JoinDropTrailing` | src/main/java/org/openjdk/nashorn/internal/runtime/NashornLoader.java:178 | dropping trailing empty pieces is the same as stripping trailing separators from the joined string |
| `Strings.SplitJoin` | src/main/java/org/openjdk/nashorn/internal/runtime/NashornLoader.java:178 | `split` followed by a join gives back the string without its trailing separators |
| `PropertyNodes.GetKeyName` | src/main/java/org/openjdk/nashorn/internal/ir/PropertyNode.java:92-94 | the key name is present exactly when the key is not computed and is a property key, and then it is that key's name |
| `PropertyNodes.KeyNameFollowsKey` | src/main/java/org/openjdk/nashorn/internal/ir/PropertyNode.java:92-94 | after `setKey` the key name is the new key's name (none for a computed key); `setValue`, `setGetter` and `setSetter` leave the key name unchanged |
| `PropertyNodes.SetKey` | src/main/java/org/openjdk/nashorn/internal/ir/PropertyNode.java:160-165 | the same node when the key is unchanged; otherwise a copy under a new identity with the same position and flags; in both cases the key is the new one and value, getter and setter are unchanged |
| `PropertyNodes.SetValue` | src/main/java/org/openjdk/nashorn/internal/ir/PropertyNode.java:200-205 | the same node when the value is unchanged; otherwise a copy under a new identity; the value is the new one and key, getter and setter are unchanged |
| `PropertyNodes.SetGetter` | src/main/java/org/openjdk/nashorn/internal/ir/PropertyNode.java:145-150 | the same node when the getter is unchanged; otherwise a copy under a new identity; the getter is the new one and key, value and setter are unchanged |
| `PropertyNodes.SetSetter` | src/main/java/org/openjdk/nashorn/internal/ir/PropertyNode.java:180-185 | the same node when the setter is unchanged; otherwise a copy under a new identity; the setter is the new one and key, value and getter are unchanged |
| `PropertyNodes.SettersIdempotent` | src/main/java/org/openjdk/nashorn/internal/ir/PropertyNode.java:145-205 | setting a field to the value just set returns that very node |
| `PropertyNodes.SetterUndo` | src/main/java/org/openjdk/nashorn/internal/ir/PropertyNode.java:200-205 | changing the value and setting it back gives the original node's fields under the identity `fresh2` |
| `PropertyNodes.Rebuild` | src/main/java/org/openjdk/nashorn/internal/ir/PropertyNode.java:99-103 | the node handed to `leavePropertyNode` has every child replaced by its visited version, null value, getter and setter left null, and position and flags kept |
| `PropertyNodes.Accept` | src/main/java/org/openjdk/nashorn/internal/ir/PropertyNode.java:97-107 | a visitor that declines to enter gets the node itself back; otherwise the result is what `leavePropertyNode` makes of the rebuilt node |
| `PropertyNodes.RebuildUnchangedChildren` | src/main/java/org/openjdk/nashorn/internal/ir/PropertyNode.java:99-103 | when every child comes back as the same object, the traversal keeps the very same node |
| `ReverseJSObjectIterators.ObjectLength` | src/main/java/org/openjdk/nashorn/internal/runtime/arrays/ReverseJSObjectIterator.java:38 | a missing `length` member counts as 0; otherwise the converted length is used |
| `ReverseJSObjectIterators.NewReverseIterator` | src/main/java/org/openjdk/nashorn/internal/runtime/arrays/ReverseJSObjectIterator.java:36-39 | the index starts at length - 1, between -1 and 2^32 - 2 |
| `ReverseJSObjectIterators.IsReverse` | src/main/java/org/openjdk/nashorn/internal/runtime/arrays/ReverseJSObjectIterator.java:42-44 | the iterator always reports itself as reverse |
| `ReverseJSObjectIterators.BumpIndex` | src/main/java/org/openjdk/nashorn/internal/runtime/arrays/ReverseJSObjectIterator.java:52-54 | returns the current index and lowers it by exactly one |
| `ReverseJSObjectIterators.StartsExhaustedIffEmpty` | src/main/java/org/openjdk/nashorn/internal/runtime/arrays/ReverseJSObjectIterator.java:38-49 | a fresh iterator has an element in the array exactly when the length is positive; a missing length starts exhausted |
| `ReverseJSObjectIterators.Walk` | src/main/java/org/openjdk/nashorn/internal/runtime/arrays/ReverseJSObjectIterator.java:38-54 | bumping while `indexInArray` holds yields len-1, len-2, ..., 0 in that order, and the iterator ends at index -1 with `indexInArray` false |
| `ReverseJSObjectIterators.BumpsCountDown` | src/main/java/org/openjdk/nashorn/internal/runtime/arrays/ReverseJSObjectIterator.java:47-54 | after n bumps the index is n lower, and `indexInArray` still holds exactly when n is at most the starting index |

## Left out

- The thresholds `SHARED_CALL_THRESHOLD` and `SHARED_GET_THRESHOLD` are read from configuration. Their defaults are 5 for calls and 100 for gets. The decision to share a call site is made by callers that are not part of this model, so the thresholds do not appear in it.
- The bit value of `CALLSITE_OPTIMISTIC` is defined in `NashornCallSiteDescriptor`, which is not part of this model. It is an unspecified constant, and every property holds for any value.
- Real bytecode emission is replaced by the abstract instruction list and its interpreter. That covers `MethodEmitter` and `ClassEmitter`, invokedynamic linking and the method-descriptor strings. The static signature is kept as a list of types, not a descriptor string.
- `getProto(depth)`, the dynamic get and the dynamic call are oracles. Their own behaviour, including the -1 "unknown depth" case, is the runtime's.
- `SharedScopeCalls.HashCode`: the hash codes of symbols and types are parameters. Only the XOR combination and the wrap-around fold of `Arrays.hashCode` are modelled.
- The security manager, `AccessController.doPrivileged`, access-control contexts and the enforcement of permissions are replaced by boolean oracles.
- Reflection and class definition are left out: `loadModuleManipulator`, `addModuleExport`, `defineClass`, `Class.forName` and `getUnnamedModule`. The parent loader is an oracle that answers found, missing or refused.
- `JavaAdapterClassLoader.LoadClass`: the four visible names are assumed to be found by Nashorn's own loader (`myLoader`, or the bootstrap loader when that is null). `findLoadedClass` caching inside the inherited `loadClass` is not modelled.
- Emitting the class bytes with `DumpBytecode` and fetching the `Context` in `findClass` are diagnostics with no effect on resolution, so they are left out.
- I/O is left out:
  - `readModuleManipulatorBytes`;
  - `getCanonicalPath`, `getAbsolutePath` and `isFile` (their answers are inputs);
  - URL construction, whose `MalformedURLException` cannot arise for a `file` URL with an empty host;
  - creating the `URLClassLoader`.
- `NashornLoader.FileToURL`: the model stops at the file part handed to `new URL("file", "", name)`. `java.net.URL` then splits off a `#` reference and a `?` query, so for a directory named `/tmp/a#b` the real URL's path is `/tmp/a`, without the trailing `/`. That parsing is not modelled, and the promises about the trailing `/` hold for the file part only.
- `NashornLoader.GetPermissions`: it states membership in both directions. It does not prove that the six permissions are pairwise distinct.
- `JSType.toUint32` of an arbitrary script value and `JSObject` member access are left out. The length arrives as an optional 32-bit unsigned number.
- The iteration loop of the superclass `JSObjectIterator` is not part of this model. `ReverseJSObjectIterators.Walk` drives the index the way such a loop would.
- `PropertyNodes.Rebuild`: the visitor is a set of pure functions, so the order in which `accept` visits key, value, getter and setter is not observable. A visitor with state would see them in that order.
- Object identity for `PropertyNode` and its children is modelled with explicit ids. A copy takes a caller-supplied id different from the original's.
- `PropertyNode.toString`, the other getters and the `Node` base class are left out.
- `SetSplitState` is a plain integer holder with no logic worth verifying.
