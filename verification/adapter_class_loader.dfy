/**
 The class loader Nashorn creates for one generated Java adapter class
 (`JavaAdapterClassLoader`): the adapter's name, how the loader resolves a
 requested class name, and the module edges it adds when it is created.

 The JVM is replaced by oracles: the package-access check of Nashorn's
 `Context` is a predicate on package names (`true` when access is granted)
 and the parent loader answers found, missing or refused for a class name.
 */
module JavaAdapterClassLoader {

  import opened Wrappers
  import opened Strings

  /** The Nashorn classes an adapter may still reach when package access is refused. */
  const VisibleInternalClassNames: set<string> := {
    "org.openjdk.nashorn.internal.runtime.linker.JavaAdapterServices",
    "org.openjdk.nashorn.internal.runtime.ScriptObject",
    "org.openjdk.nashorn.internal.runtime.ScriptFunction",
    "org.openjdk.nashorn.internal.runtime.JSType"
  }

  const RuntimePkg: string := "org.openjdk.nashorn.internal.runtime"
  const RuntimeLinkerPkg: string := "org.openjdk.nashorn.internal.runtime.linker"

  /** The loader's state: the adapter's binary name and its class file. */
  datatype AdapterLoader = AdapterLoader(className: string, classBytes: seq<bv8>)

  /** The constructor: the internal name's `/` separators become `.`. */
  function NewAdapterLoader(className: string, classBytes: seq<bv8>): (l: AdapterLoader)
    ensures '/' !in l.className && |l.className| == |className|
    ensures forall i :: 0 <= i < |className| && className[i] != '/' ==> l.className[i] == className[i]
    ensures forall i :: 0 <= i < |className| && className[i] == '/' ==> l.className[i] == '.'
    ensures l.classBytes == classBytes
  {
    ReplaceRemovesAll(className, '/', '.');
    AdapterLoader(Replace(className, '/', '.'), classBytes)
  }

  /** Normalising an already normalised name changes nothing. */
  lemma NewAdapterLoaderIdempotent(className: string, classBytes: seq<bv8>)
    ensures NewAdapterLoader(NewAdapterLoader(className, classBytes).className, classBytes)
         == NewAdapterLoader(className, classBytes)
  {
  }

  // ---------------------------------------------------------------------
  // Class resolution
  // ---------------------------------------------------------------------

  datatype ProtectionDomain = ProtectionDomain(id: nat)

  /** Where a resolved class comes from. */
  datatype ClassRef =
    | Adapter(name: string, domain: ProtectionDomain) // defined by this loader from the class bytes
    | FromParent(name: string)                        // found by the parent loader
    | NashornClass(name: string)                      // one of Nashorn's own classes

  datatype SecurityError =
    | PackageDenied(pkg: string)     // the package-access check refused
    | ParentDenied(name: string)     // the parent loader refused

  datatype LoadResult =
    | Loaded(cls: ClassRef)
    | NotFound(name: string)         // ClassNotFoundException
    | Denied(error: SecurityError)   // SecurityException

  datatype ParentAnswer = ParentFound | ParentMissing | ParentRefused

  /** The world the loader runs in. */
  datatype Env = Env(packageAccess: string -> bool, parent: string -> ParentAnswer)

  /** `findClass(name)`: only the adapter's own name is defined; anything else is not found. */
  function FindClass(l: AdapterLoader, pd: ProtectionDomain, name: string): (r: LoadResult)
    ensures r.Loaded? <==> name == l.className
    ensures r.Loaded? ==> r.cls == Adapter(l.className, pd)
    ensures !r.Loaded? ==> r == NotFound(name)
  {
    if name == l.className then Loaded(Adapter(name, pd)) else NotFound(name)
  }

  /** The inherited `loadClass`: ask the parent first and fall back to `findClass`. */
  function DelegatingLoad(l: AdapterLoader, pd: ProtectionDomain, env: Env, name: string): (r: LoadResult)
    ensures env.parent(name) == ParentFound ==> r == Loaded(FromParent(name))
    ensures env.parent(name) == ParentRefused ==> r == Denied(ParentDenied(name))
    ensures env.parent(name) == ParentMissing ==> r == FindClass(l, pd, name)
  {
    match env.parent(name)
    case ParentFound => Loaded(FromParent(name))
    case ParentRefused => Denied(ParentDenied(name))
    case ParentMissing => FindClass(l, pd, name)
  }

  /**
   The overridden `loadClass(name, resolve)`: a name with a dot has its
   package checked first; then the inherited lookup runs. A security
   refusal from either step is forgiven only for the four visible Nashorn
   classes, which are then taken from Nashorn's own loader; otherwise the
   same refusal propagates.
   */
  function LoadClass(l: AdapterLoader, pd: ProtectionDomain, env: Env, name: string): (r: LoadResult)
    ensures r.Denied? ==> name !in VisibleInternalClassNames
    ensures r.Loaded? && r.cls.NashornClass? ==> name in VisibleInternalClassNames && r.cls.name == name
    ensures r.NotFound? ==> r.name == name && name != l.className
    ensures r.Loaded? && r.cls.Adapter? ==> r.cls == Adapter(l.className, pd) && name == l.className
  {
    var attempt :=
      match PackageName(name)
      case Some(pkg) =>
        if !env.packageAccess(pkg) then Denied(PackageDenied(pkg)) else DelegatingLoad(l, pd, env, name)
      case None => DelegatingLoad(l, pd, env, name);
    if attempt.Denied? && name in VisibleInternalClassNames then Loaded(NashornClass(name))
    else attempt
  }

  /** A name without a dot never reaches the package-access check. */
  lemma NoDotSkipsAccessCheck(l: AdapterLoader, pd: ProtectionDomain, env: Env, access: string -> bool, name: string)
    requires '.' !in name
    ensures LoadClass(l, pd, env, name) == LoadClass(l, pd, env.(packageAccess := access), name)
  {
  }

  /**
   When the package check refuses, the class still resolves (to Nashorn's
   own class) exactly when it is one of the four visible names; otherwise
   that very refusal is the outcome.
   */
  lemma DeniedPackageResolvesIffVisible(l: AdapterLoader, pd: ProtectionDomain, env: Env, name: string, pkg: string)
    requires IsPackageOf(pkg, name) && !env.packageAccess(pkg)
    ensures LoadClass(l, pd, env, name).Loaded? <==> name in VisibleInternalClassNames
    ensures name in VisibleInternalClassNames ==> LoadClass(l, pd, env, name) == Loaded(NashornClass(name))
    ensures name !in VisibleInternalClassNames ==> LoadClass(l, pd, env, name) == Denied(PackageDenied(pkg))
  {
  }

  /**
   When the check passes (or is skipped), resolution is exactly the
   inherited parent-first lookup, except that a parent refusal of a
   visible name is forgiven and resolves to Nashorn's own class.
   */
  lemma GrantedIsDelegation(l: AdapterLoader, pd: ProtectionDomain, env: Env, name: string)
    requires PackageName(name).Some? ==> env.packageAccess(PackageName(name).value)
    ensures name !in VisibleInternalClassNames ==> LoadClass(l, pd, env, name) == DelegatingLoad(l, pd, env, name)
    ensures env.parent(name) != ParentRefused ==> LoadClass(l, pd, env, name) == DelegatingLoad(l, pd, env, name)
    ensures name in VisibleInternalClassNames && env.parent(name) == ParentRefused
      ==> LoadClass(l, pd, env, name) == Loaded(NashornClass(name))
  {
  }

  /** The adapter's own name is never "not found": the parent has it, it is refused, or the loader defines it. */
  lemma StoredNameNeverNotFound(l: AdapterLoader, pd: ProtectionDomain, env: Env)
    ensures !LoadClass(l, pd, env, l.className).NotFound?
  {
  }

  /**
   `generateClass(parentLoader, protectionDomain)`: a fresh loader resolves
   the adapter's name. The protection domain must be present, and the
   result is never "not found" (the Java code marks that case impossible); when
   the loader defines the class itself it is placed in that domain.
   */
  function GenerateClass(l: AdapterLoader, env: Env, protectionDomain: Option<ProtectionDomain>): (r: LoadResult)
    requires protectionDomain.Some?
    ensures !r.NotFound?
    ensures r.Loaded? && r.cls.Adapter? ==> r.cls == Adapter(l.className, protectionDomain.value)
    ensures env.parent(l.className) == ParentMissing && (PackageName(l.className).Some? ==> env.packageAccess(PackageName(l.className).value))
      ==> r == Loaded(Adapter(l.className, protectionDomain.value))
  {
    LoadClass(l, protectionDomain.value, env, l.className)
  }

  // ---------------------------------------------------------------------
  // Module wiring
  // ---------------------------------------------------------------------

  datatype Module = NashornModule | UnnamedModule(loader: nat)

  /** Qualified exports `(from, package, to)` and read edges `(from, to)`. */
  datatype ModuleGraph = ModuleGraph(exports: set<(Module, string, Module)>, readEdges: set<(Module, Module)>)

  /**
   The loader's initialiser: Nashorn exports `runtime` and `runtime.linker`
   to the adapter's unnamed module and reads that module. `Module.addExports`
   and `Module.addReads` do nothing when the receiving module is unnamed, so
   when Nashorn itself sits on the class path (`nashornNamed` false) the
   graph is left as it was.
   */
  function SetUpModules(g: ModuleGraph, adapterModule: Module, nashornNamed: bool): (g': ModuleGraph)
    requires adapterModule.UnnamedModule?
    ensures g.exports <= g'.exports && g.readEdges <= g'.readEdges
    ensures !nashornNamed ==> g' == g
    ensures nashornNamed ==> (NashornModule, RuntimePkg, adapterModule) in g'.exports
    ensures nashornNamed ==> (NashornModule, RuntimeLinkerPkg, adapterModule) in g'.exports
    ensures nashornNamed ==> (NashornModule, adapterModule) in g'.readEdges
    ensures forall e :: e in g'.exports && e !in g.exports ==>
      e.0 == NashornModule && e.2 == adapterModule && (e.1 == RuntimePkg || e.1 == RuntimeLinkerPkg)
    ensures forall e :: e in g'.readEdges && e !in g.readEdges ==> e == (NashornModule, adapterModule)
  {
    if !nashornNamed then g
    else
      ModuleGraph(
        g.exports + {(NashornModule, RuntimePkg, adapterModule), (NashornModule, RuntimeLinkerPkg, adapterModule)},
        g.readEdges + {(NashornModule, adapterModule)})
  }

  /** Nothing is granted from the adapter's module: every new edge leaves Nashorn. */
  lemma NoReverseEdges(g: ModuleGraph, adapterModule: Module, nashornNamed: bool)
    requires adapterModule.UnnamedModule?
    ensures forall e :: e in SetUpModules(g, adapterModule, nashornNamed).exports && e.0 == adapterModule ==> e in g.exports
    ensures forall e :: e in SetUpModules(g, adapterModule, nashornNamed).readEdges && e.0 == adapterModule ==> e in g.readEdges
  {
  }

  /** Setting up twice adds nothing more than setting up once. */
  lemma SetUpModulesIdempotent(g: ModuleGraph, adapterModule: Module, nashornNamed: bool)
    requires adapterModule.UnnamedModule?
    ensures SetUpModules(SetUpModules(g, adapterModule, nashornNamed), adapterModule, nashornNamed)
         == SetUpModules(g, adapterModule, nashornNamed)
  {
  }
}
