/**
 A scope get or scope call that many call sites share: one static method per
 distinct key, taking the caller's scope, the depth of the target scope and
 the caller's program point ahead of the call's own arguments.

 The emitted method is modelled as a list of abstract instructions (`Insn`)
 run by a small stack interpreter (`Exec`); the dynamic operations it links
 to (`getProto`, the dynamic get and the dynamic call) are oracles in a
 `Runtime`. `Reference` states what the shared method is meant to do; the
 lemma `GeneratedCodeImplementsReference` proves that the emitted
 instructions do exactly that.
 */
module SharedScopeCalls {
  import opened Wrappers

  /** Scope, depth and program point precede the call's own parameters. */
  const FixedParamCount: nat := 3

  /**
   The call-site flag bit marking an optimistic operation. Its value is
   defined in NashornCallSiteDescriptor, which is not part of this model;
   nothing below depends on which bit it is.
   */
  const CallsiteOptimistic: bv32

  /** A compiler type; only its slot width and whether it is an object type matter here. */
  datatype Type = IntType | LongType | NumberType | BooleanType | ObjectType(className: string)
  {
    /** Number of local-variable slots a value of this type occupies. */
    function Slots(): nat
    {
      if LongType? || NumberType? then 2 else 1
    }

    predicate IsObject()
    {
      ObjectType?
    }
  }

  const ObjectT: Type := ObjectType("java.lang.Object")
  const ScriptObjectT: Type := ObjectType("org.openjdk.nashorn.internal.runtime.ScriptObject")

  /** A compiler symbol; `id` stands for its object identity. */
  datatype Symbol = Symbol(id: nat, name: string)

  datatype Signature = Signature(returnType: Type, params: seq<Type>)

  /** Where the generated method lives, once assigned. */
  datatype MethodTarget = MethodTarget(unitClassName: string, methodName: string)

  /**
   A shared scope call. `paramTypes` is `None` for a get; `isCall` is derived
   from it by the constructor. `target` and `staticSignature` are the two
   fields Nashorn assigns after construction.
   */
  datatype SharedScopeCall = SharedScopeCall(
    symbol: Symbol,
    valueType: Type,
    returnType: Type,
    paramTypes: Option<seq<Type>>,
    flags: bv32,
    isCall: bool,
    isOptimistic: bool,
    target: Option<MethodTarget>,
    staticSignature: Option<Signature>)

  /** The invariant every shared call keeps: `isCall` mirrors `paramTypes`, and a memoised signature is the right one. */
  ghost predicate Valid(c: SharedScopeCall)
  {
    && (c.isCall <==> c.paramTypes.Some?)
    && (c.staticSignature.Some? ==> c.staticSignature.value == StaticSignature(c))
  }

  /** The constructor. */
  function NewSharedScopeCall(symbol: Symbol, valueType: Type, returnType: Type,
                              paramTypes: Option<seq<Type>>, flags: bv32, isOptimistic: bool): (c: SharedScopeCall)
    ensures Valid(c)
    ensures c.isCall <==> paramTypes.Some?
    ensures c.symbol == symbol && c.valueType == valueType && c.returnType == returnType
    ensures c.paramTypes == paramTypes && c.flags == flags && c.isOptimistic == isOptimistic
    ensures c.target.None? && c.staticSignature.None?
  {
    SharedScopeCall(symbol, valueType, returnType, paramTypes, flags, paramTypes.Some?, isOptimistic, None, None)
  }

  /** `setClassAndName`: records where the generated method lives; the key is untouched. */
  function SetClassAndName(c: SharedScopeCall, unitClassName: string, methodName: string): (d: SharedScopeCall)
    requires Valid(c)
    ensures Valid(d) && Equals(c, d)
    ensures d.target == Some(MethodTarget(unitClassName, methodName))
    ensures d.valueType == c.valueType && d.staticSignature == c.staticSignature
  {
    EqualsIsEquivalence(c, c, c);
    c.(target := Some(MethodTarget(unitClassName, methodName)))
  }

  // ---------------------------------------------------------------------------
  // Cache-key equality and hash code

  /** Element-wise comparison of two type arrays, in order. */
  predicate SameTypes(a: seq<Type>, b: seq<Type>)
    decreases |a|
  {
    |a| == |b| && (|a| == 0 || (a[0] == b[0] && SameTypes(a[1..], b[1..])))
  }

  /** `Arrays.equals`: null equals only null, otherwise same length and same elements in order. */
  predicate ArraysEquals(a: Option<seq<Type>>, b: Option<seq<Type>>)
  {
    match a
    case None => b.None?
    case Some(x) => b.Some? && SameTypes(x, b.value)
  }

  /** `equals`: symbol, flags, return type, parameter types and optimism; the value type is not compared. */
  predicate Equals(a: SharedScopeCall, b: SharedScopeCall)
  {
    && a.symbol == b.symbol
    && a.flags == b.flags
    && a.returnType == b.returnType
    && ArraysEquals(a.paramTypes, b.paramTypes)
    && a.isOptimistic == b.isOptimistic
  }

  lemma {:induction false} SameTypesIsEquality(a: seq<Type>, b: seq<Type>)
    ensures SameTypes(a, b) <==> a == b
    decreases |a|
  {
    if |a| == |b| && |a| > 0 {
      SameTypesIsEquality(a[1..], b[1..]);
      if a[0] == b[0] && a[1..] == b[1..] {
        assert a == [a[0]] + a[1..];
        assert b == [b[0]] + b[1..];
      }
    }
  }

  lemma ArraysEqualsIsEquality(a: Option<seq<Type>>, b: Option<seq<Type>>)
    ensures ArraysEquals(a, b) <==> a == b
  {
    if a.Some? && b.Some? {
      SameTypesIsEquality(a.value, b.value);
    }
  }

  /** Two valid shared calls are equal exactly when they agree on everything but the value type and the post-construction fields. */
  lemma EqualsIffSameKey(a: SharedScopeCall, b: SharedScopeCall)
    requires Valid(a) && Valid(b)
    ensures Equals(a, b) <==> a.(valueType := b.valueType, target := b.target, staticSignature := b.staticSignature) == b
  {
    ArraysEqualsIsEquality(a.paramTypes, b.paramTypes);
  }

  /** `equals` is an equivalence relation. */
  lemma EqualsIsEquivalence(a: SharedScopeCall, b: SharedScopeCall, c: SharedScopeCall)
    ensures Equals(a, a)
    ensures Equals(a, b) ==> Equals(b, a)
    ensures Equals(a, b) && Equals(b, c) ==> Equals(a, c)
  {
    ArraysEqualsIsEquality(a.paramTypes, a.paramTypes);
    ArraysEqualsIsEquality(a.paramTypes, b.paramTypes);
    ArraysEqualsIsEquality(b.paramTypes, a.paramTypes);
    ArraysEqualsIsEquality(b.paramTypes, c.paramTypes);
    ArraysEqualsIsEquality(a.paramTypes, c.paramTypes);
  }

  /** `Boolean.hashCode` */
  function BooleanHash(b: bool): bv32
  {
    if b then 1231 else 1237
  }

  /** The fold of `Arrays.hashCode`: `h = 31 * h + hash(e)` with 32-bit wrap-around. */
  function TypesHash(ts: seq<Type>, acc: bv32, typeHash: Type -> bv32): bv32
    decreases |ts|
  {
    if |ts| == 0 then acc else TypesHash(ts[1..], 31 * acc + typeHash(ts[0]), typeHash)
  }

  /** `Arrays.hashCode`: 0 for null, otherwise the fold started at 1. */
  function ArraysHashCode(a: Option<seq<Type>>, typeHash: Type -> bv32): bv32
  {
    match a
    case None => 0
    case Some(ts) => TypesHash(ts, 1, typeHash)
  }

  /** `hashCode`, for any hash codes of the symbols and types. */
  function HashCode(c: SharedScopeCall, symbolHash: Symbol -> bv32, typeHash: Type -> bv32): bv32
  {
    KeyHash(symbolHash(c.symbol), typeHash(c.returnType), ArraysHashCode(c.paramTypes, typeHash),
      c.flags, BooleanHash(c.isOptimistic))
  }

  /** The XOR of the component hash codes. */
  function KeyHash(symbolHash: bv32, returnTypeHash: bv32, paramsHash: bv32, flags: bv32, optimisticHash: bv32): bv32
  {
    symbolHash ^ returnTypeHash ^ paramsHash ^ flags ^ optimisticHash
  }

  /** Equal keys have equal hash codes, whatever the component hash codes are. */
  lemma EqualsImpliesSameHash(a: SharedScopeCall, b: SharedScopeCall, symbolHash: Symbol -> bv32, typeHash: Type -> bv32)
    requires Equals(a, b)
    ensures HashCode(a, symbolHash, typeHash) == HashCode(b, symbolHash, typeHash)
  {
    ArraysEqualsIsEquality(a.paramTypes, b.paramTypes);
    assert ArraysHashCode(a.paramTypes, typeHash) == ArraysHashCode(b.paramTypes, typeHash);
  }

  // ---------------------------------------------------------------------------
  // Static signature

  /** The three fixed parameters: scope object, depth, program point. */
  const FixedParams: seq<Type> := [ScriptObjectT, IntType, IntType]

  /** The signature of the generated static method. */
  function StaticSignature(c: SharedScopeCall): (sig: Signature)
    ensures sig.returnType == c.returnType
    ensures |sig.params| >= FixedParamCount && sig.params[..FixedParamCount] == FixedParams
    ensures c.paramTypes.None? ==> |sig.params| == FixedParamCount
    ensures c.paramTypes.Some? ==> |sig.params| == FixedParamCount + |c.paramTypes.value|
    ensures c.paramTypes.Some? ==>
      forall i :: 0 <= i < |c.paramTypes.value| ==> sig.params[FixedParamCount + i] == c.paramTypes.value[i]
  {
    match c.paramTypes
    case None => Signature(c.returnType, FixedParams)
    case Some(ps) => Signature(c.returnType, FixedParams + ps)
  }

  /** `getStaticSignature`: computes the signature once and memoises it. */
  function GetStaticSignature(c: SharedScopeCall): (res: (Signature, SharedScopeCall))
    requires Valid(c)
    ensures res.0 == StaticSignature(c)
    ensures res.1.staticSignature == Some(res.0)
    ensures Valid(res.1) && res.1 == c.(staticSignature := res.1.staticSignature)
    ensures c.staticSignature.Some? ==> res.1 == c
  {
    match c.staticSignature
    case Some(sig) => (sig, c)
    case None =>
      var sig := StaticSignature(c);
      (sig, c.(staticSignature := Some(sig)))
  }

  /** Once memoised, the signature never changes and asking again changes nothing. */
  lemma SignatureIsMemoised(c: SharedScopeCall)
    requires Valid(c)
    ensures GetStaticSignature(GetStaticSignature(c).1) == GetStaticSignature(c)
  {
  }

  // ---------------------------------------------------------------------------
  // The generated method, as abstract instructions

  datatype Insn =
    | Load(t: Type, slot: nat)                 // typed load of a local-variable slot
    | InvokeGetProtoDepth                      // ScriptObject.getProto(int) on the two topmost values
    | TryStart                                 // begin_try label, handler for UnwarrantedOptimismException
    | DynamicGet(valueType: Type, name: string, flags: bv32, isMethod: bool, isIndex: bool)
    | Convert(t: Type)
    | LoadUndefined(t: Type)
    | DynamicCall(returnType: Type, argCount: nat, flags: bv32, name: string)
    | TryEnd                                   // end_try label
    | Return(t: Type)
    | CatchStart                               // catch_label: the caught exception is on the stack
    | InvokeReplaceProgramPoint                // UnwarrantedOptimismException.replaceProgramPoint(int)
    | Athrow
    | InvokeStatic(owner: string, name: string, sig: Signature)

  /** The number of slots a list of parameters occupies. */
  function SlotWidth(types: seq<Type>): nat
  {
    if |types| == 0 then 0 else types[0].Slots() + SlotWidth(types[1..])
  }

  /** Loads of consecutive parameters starting at `slot`, each advancing by its type's width. */
  function ParamLoads(types: seq<Type>, slot: nat): (code: seq<Insn>)
    ensures |code| == |types|
    decreases |types|
  {
    if |types| == 0 then [] else [Load(types[0], slot)] + ParamLoads(types[1..], slot + types[0].Slots())
  }

  /** The flags of the dynamic get. */
  function GetFlags(c: SharedScopeCall): bv32
  {
    if c.isOptimistic && !c.isCall then c.flags | CallsiteOptimistic else c.flags
  }

  /** The flags of the dynamic call. */
  function CallFlags(c: SharedScopeCall): bv32
  {
    if c.isOptimistic then c.flags | CallsiteOptimistic else c.flags
  }

  const ScopeLoad: seq<Insn> := [Load(ObjectT, 0), Load(IntType, 1), InvokeGetProtoDepth]
  const CatchHandler: seq<Insn> := [CatchStart, Load(IntType, 2), InvokeReplaceProgramPoint, Athrow]

  function GetInsn(c: SharedScopeCall): Insn
  {
    DynamicGet(c.valueType, c.symbol.name, GetFlags(c), c.isCall, false)
  }

  /** For a call: convert, undefined `this`, the parameters, the dynamic call. */
  function CallPart(c: SharedScopeCall): seq<Insn>
    requires Valid(c)
  {
    if c.isCall then
      var ps := c.paramTypes.value;
      [Convert(ObjectT), LoadUndefined(ObjectT)] + ParamLoads(ps, FixedParamCount)
        + [DynamicCall(c.returnType, 2 + |ps|, CallFlags(c), c.symbol.name)]
    else []
  }

  /** The body of the method `generateScopeCall` emits. */
  function ScopeCallCode(c: SharedScopeCall): seq<Insn>
    requires Valid(c)
  {
    if c.isOptimistic then
      ScopeLoad + [TryStart, GetInsn(c)] + CallPart(c) + [TryEnd, Return(c.returnType)] + CatchHandler
    else
      ScopeLoad + [GetInsn(c)] + CallPart(c) + [Return(c.returnType)]
  }

  datatype MethodDecl = MethodDecl(owner: string, name: string, sig: Signature, code: seq<Insn>)

  /** `generateScopeCall`: declares the static method with the memoised signature. */
  function GenerateScopeCall(c: SharedScopeCall): (res: (MethodDecl, SharedScopeCall))
    requires Valid(c) && c.target.Some?
    requires !c.isCall || c.valueType.IsObject()
    ensures res.0.sig == StaticSignature(c) && res.1.staticSignature == Some(res.0.sig)
    ensures Valid(res.1) && Equals(c, res.1) && res.1 == GetStaticSignature(c).1
    ensures res.0.owner == c.target.value.unitClassName && res.0.name == c.target.value.methodName
    ensures forall inv, rt :: WellFormed(c, inv) ==> Invoke(c, res.0.code, inv, rt) == Completed(Reference(c, inv, rt))
  {
    var (sig, d) := GetStaticSignature(c);
    EqualsIsEquivalence(c, d, d);
    ScopeCallCodeImplementsReference(c);
    (MethodDecl(c.target.value.unitClassName, c.target.value.methodName, sig, ScopeCallCode(c)), d)
  }

  /** `generateInvoke`: the static call a sharing call site emits. */
  function GenerateInvoke(c: SharedScopeCall): (res: (Insn, SharedScopeCall))
    requires Valid(c) && c.target.Some?
    ensures res.0.InvokeStatic? && res.0.sig == StaticSignature(c)
    ensures res.0.owner == c.target.value.unitClassName && res.0.name == c.target.value.methodName
    ensures Valid(res.1) && Equals(c, res.1) && res.1 == GetStaticSignature(c).1
  {
    var (sig, d) := GetStaticSignature(c);
    EqualsIsEquivalence(c, d, d);
    (InvokeStatic(c.target.value.unitClassName, c.target.value.methodName, sig), d)
  }

  /**
   Call sites and the shared method agree: whichever of `generateInvoke` and
   `generateScopeCall` runs first, the invocation names the declared method
   with its declared signature.
   */
  lemma InvokeTargetsDeclaredMethod(c: SharedScopeCall)
    requires Valid(c) && c.target.Some?
    requires !c.isCall || c.valueType.IsObject()
    ensures var (decl, d) := GenerateScopeCall(c);
            var (call, _) := GenerateInvoke(d);
            call == InvokeStatic(decl.owner, decl.name, decl.sig)
    ensures var (call, d) := GenerateInvoke(c);
            var (decl, _) := GenerateScopeCall(d);
            call == InvokeStatic(decl.owner, decl.name, decl.sig)
  {
  }

  // ---------------------------------------------------------------------------
  // Slot numbering

  lemma {:induction false} SlotWidthAppend(a: seq<Type>, b: seq<Type>)
    ensures SlotWidth(a + b) == SlotWidth(a) + SlotWidth(b)
    decreases |a|
  {
    if |a| == 0 {
      assert a + b == b;
    } else {
      assert (a + b)[1..] == a[1..] + b;
      SlotWidthAppend(a[1..], b);
    }
  }

  /** Parameter `i` is loaded from slot `slot` plus the widths of the parameters before it. */
  lemma {:induction false} ParamLoadsSlots(types: seq<Type>, slot: nat, i: nat)
    requires i < |types|
    ensures ParamLoads(types, slot)[i] == Load(types[i], slot + SlotWidth(types[..i]))
    decreases i
  {
    if i > 0 {
      ParamLoadsSlots(types[1..], slot + types[0].Slots(), i - 1);
      assert types[..i] == [types[0]] + types[1..][..i - 1];
      SlotWidthAppend([types[0]], types[1..][..i - 1]);
    }
  }

  /**
   A later parameter starts only after every slot of an earlier one, so no
   two parameters share a slot, even when the earlier one is a two-slot
   `long` or `double`.
   */
  lemma ParamSlotsIncrease(types: seq<Type>, i: nat, j: nat)
    requires i < j <= |types|
    ensures SlotWidth(types[..i]) + types[i].Slots() <= SlotWidth(types[..j])
  {
    assert types[..j] == types[..i] + types[i..j];
    SlotWidthAppend(types[..i], types[i..j]);
    assert types[i..j] == [types[i]] + types[i + 1..j];
    SlotWidthAppend([types[i]], types[i + 1..j]);
  }

  /** The call part: convert, undefined `this`, every parameter from its slot, and a call of `2 + n` operands. */
  lemma CallPartShape(c: SharedScopeCall)
    requires Valid(c) && c.isCall
    ensures var part := CallPart(c);
            var ps := c.paramTypes.value;
            && |part| == 3 + |ps|
            && part[0] == Convert(ObjectT)
            && part[1] == LoadUndefined(ObjectT)
            && (forall i :: 0 <= i < |ps| ==> part[2 + i] == Load(ps[i], FixedParamCount + SlotWidth(ps[..i])))
            && part[2 + |ps|] == DynamicCall(c.returnType, 2 + |ps|, CallFlags(c), c.symbol.name)
  {
    var ps := c.paramTypes.value;
    var part := CallPart(c);
    forall i | 0 <= i < |ps|
      ensures part[2 + i] == Load(ps[i], FixedParamCount + SlotWidth(ps[..i]))
    {
      ParamLoadsSlots(ps, FixedParamCount, i);
    }
  }

  /** The emitted code: scope lookup first, one dynamic get with the get flags, and for calls the parameter loads and a call of `2 + n` operands. */
  lemma ScopeCallCodeShape(c: SharedScopeCall)
    requires Valid(c)
    ensures var code := ScopeCallCode(c);
            var g := if c.isOptimistic then 4 else 3;
            && code[..3] == [Load(ObjectT, 0), Load(IntType, 1), InvokeGetProtoDepth]
            && code[g] == DynamicGet(c.valueType, c.symbol.name, GetFlags(c), c.isCall, false)
            && (c.isCall ==>
                  var ps := c.paramTypes.value;
                  && code[g + 1] == Convert(ObjectT)
                  && code[g + 2] == LoadUndefined(ObjectT)
                  && (forall i :: 0 <= i < |ps| ==>
                        code[g + 3 + i] == Load(ps[i], FixedParamCount + SlotWidth(ps[..i])))
                  && code[g + 3 + |ps|] == DynamicCall(c.returnType, 2 + |ps|, CallFlags(c), c.symbol.name))
  {
    var code := ScopeCallCode(c);
    var g := if c.isOptimistic then 4 else 3;
    var part := CallPart(c);
    var pre := if c.isOptimistic then ScopeLoad + [TryStart, GetInsn(c)] else ScopeLoad + [GetInsn(c)];
    var post := if c.isOptimistic then [TryEnd, Return(c.returnType)] + CatchHandler else [Return(c.returnType)];
    assert code == pre + part + post;
    assert |pre| == g + 1;
    if c.isCall {
      CallPartShape(c);
      var ps := c.paramTypes.value;
      forall k | 0 <= k < |part| ensures code[g + 1 + k] == part[k] {
        assert code[g + 1 + k] == (pre + part + post)[|pre| + k];
      }
      assert code[g + 3 + |ps|] == part[2 + |ps|];
    }
  }

  /**
   The optimistic flag is added to the get flags of an optimistic get, every
   other bit kept; every other get passes the flags through.
   */
  lemma GetFlagsRule(c: SharedScopeCall)
    ensures c.isOptimistic && !c.isCall ==> GetFlags(c) & CallsiteOptimistic == CallsiteOptimistic
    ensures c.isOptimistic && !c.isCall ==> GetFlags(c) & !CallsiteOptimistic == c.flags & !CallsiteOptimistic
    ensures !(c.isOptimistic && !c.isCall) ==> GetFlags(c) == c.flags
  {
    GetFlagsKeepOtherBits(c);
  }

  lemma GetFlagsKeepOtherBits(c: SharedScopeCall)
    ensures c.isOptimistic && !c.isCall ==> GetFlags(c) & !CallsiteOptimistic == c.flags & !CallsiteOptimistic
  {
    if c.isOptimistic && !c.isCall {
      OrSetsBitsKeepsOthers(c.flags, CallsiteOptimistic);
    }
  }

  /**
   The optimistic flag is added to the call flags of every optimistic call,
   every other bit kept; otherwise the flags pass through.
   */
  lemma CallFlagsRule(c: SharedScopeCall)
    ensures c.isOptimistic ==> CallFlags(c) & CallsiteOptimistic == CallsiteOptimistic
    ensures c.isOptimistic ==> CallFlags(c) & !CallsiteOptimistic == c.flags & !CallsiteOptimistic
    ensures !c.isOptimistic ==> CallFlags(c) == c.flags
  {
    CallFlagsKeepOtherBits(c);
  }

  lemma CallFlagsKeepOtherBits(c: SharedScopeCall)
    ensures c.isOptimistic ==> CallFlags(c) & !CallsiteOptimistic == c.flags & !CallsiteOptimistic
  {
    if c.isOptimistic {
      OrSetsBitsKeepsOthers(c.flags, CallsiteOptimistic);
    }
  }

  /** `f | o` sets the bits of `o` and leaves every other bit of `f` as it was. */
  lemma OrSetsBitsKeepsOthers(f: bv32, o: bv32)
    ensures (f | o) & o == o
    ensures (f | o) & !o == f & !o
  {
  }

  /** Only optimistic methods install the exception handler, and it ends the method. */
  lemma HandlerIffOptimistic(c: SharedScopeCall)
    requires Valid(c)
    ensures CatchStart in ScopeCallCode(c) <==> c.isOptimistic
    ensures c.isOptimistic ==> ScopeCallCode(c)[|ScopeCallCode(c)| - 4..] == CatchHandler
  {
    var code := ScopeCallCode(c);
    if c.isOptimistic {
      assert code[|code| - 4] == CatchStart;
    } else {
      var ps := if c.isCall then c.paramTypes.value else [];
      if c.isCall {
        forall i | 0 <= i < |ps| ensures ParamLoads(ps, FixedParamCount)[i] != CatchStart {
          ParamLoadsSlots(ps, FixedParamCount, i);
        }
      }
      assert CatchStart !in CallPart(c);
    }
  }

  // ---------------------------------------------------------------------------
  // Run-time behaviour

  datatype Value =
    | Undefined
    | IntValue(i: int)
    | Ref(id: nat)
    | OptimismException(returnValue: Value, programPoint: int)

  /** The result of a speculative operation: a value, or an UnwarrantedOptimismException. */
  datatype Outcome = Normal(value: Value) | Unwarranted(returnValue: Value, programPoint: int)

  datatype GetSite = GetSite(name: string, valueType: Type, flags: bv32, isMethod: bool)
  datatype CallSite = CallSite(name: string, returnType: Type, flags: bv32)

  /** The operations the generated code links to. */
  datatype Runtime = Runtime(
    getProto: (Value, int) -> Value,
    dynamicGet: (Value, GetSite) -> Outcome,
    dynamicCall: (seq<Value>, CallSite) -> Outcome)

  /** An invocation of the shared method: the three fixed arguments and the call's own arguments. */
  datatype Invocation = Invocation(scope: Value, depth: int, programPoint: int, args: seq<Value>)

  /** The underlying dynamic operation: get the symbol from the target scope and, for a call, call it with an undefined `this`. */
  function Underlying(c: SharedScopeCall, inv: Invocation, rt: Runtime): Outcome
  {
    var target := rt.getProto(inv.scope, inv.depth);
    var got := rt.dynamicGet(target, GetSite(c.symbol.name, c.valueType, GetFlags(c), c.isCall));
    if c.isCall && got.Normal? then
      rt.dynamicCall([got.value, Undefined] + inv.args, CallSite(c.symbol.name, c.returnType, CallFlags(c)))
    else got
  }

  /** What the shared method promises: the underlying operation, with a failed optimism restamped with the caller's program point. */
  function Reference(c: SharedScopeCall, inv: Invocation, rt: Runtime): Outcome
  {
    var raw := Underlying(c, inv, rt);
    if c.isOptimistic && raw.Unwarranted? then Unwarranted(raw.returnValue, inv.programPoint) else raw
  }

  datatype Run = Completed(outcome: Outcome) | Stuck

  /** The first index at or after `from` holding `x`, or `|code|`. */
  function FindFrom(code: seq<Insn>, from: nat, x: Insn): (r: nat)
    ensures from <= r <= |code| || (from > |code| && r == from)
    ensures r < |code| ==> code[r] == x
    ensures forall k :: from <= k < r && k < |code| ==> code[k] != x
    decreases |code| - from
  {
    if from >= |code| then from
    else if code[from] == x then from
    else FindFrom(code, from + 1, x)
  }

  /** Runs `code` from `pc`; `inTry` tells whether the handler region is open. */
  function Exec(code: seq<Insn>, pc: nat, stack: seq<Value>, inTry: bool, locals: map<nat, Value>, rt: Runtime): Run
    decreases |code| - pc, 1
  {
    if pc >= |code| then Stuck
    else
      match code[pc]
      case Load(_, slot) =>
        if slot in locals then Exec(code, pc + 1, stack + [locals[slot]], inTry, locals, rt) else Stuck
      case InvokeGetProtoDepth =>
        if |stack| >= 2 && stack[|stack| - 1].IntValue? then
          var scope := rt.getProto(stack[|stack| - 2], stack[|stack| - 1].i);
          Exec(code, pc + 1, stack[..|stack| - 2] + [scope], inTry, locals, rt)
        else Stuck
      case TryStart => Exec(code, pc + 1, stack, true, locals, rt)
      case TryEnd => Exec(code, pc + 1, stack, false, locals, rt)
      case CatchStart => Exec(code, pc + 1, stack, inTry, locals, rt)
      case DynamicGet(vt, name, flags, isMethod, _) =>
        if |stack| >= 1 then
          var o := rt.dynamicGet(stack[|stack| - 1], GetSite(name, vt, flags, isMethod));
          Continue(code, pc, stack[..|stack| - 1], inTry, locals, rt, o)
        else Stuck
      case Convert(_) => Exec(code, pc + 1, stack, inTry, locals, rt)
      case LoadUndefined(_) => Exec(code, pc + 1, stack + [Undefined], inTry, locals, rt)
      case DynamicCall(rtype, n, flags, name) =>
        if |stack| >= n then
          var o := rt.dynamicCall(stack[|stack| - n..], CallSite(name, rtype, flags));
          Continue(code, pc, stack[..|stack| - n], inTry, locals, rt, o)
        else Stuck
      case Return(_) =>
        if |stack| >= 1 then Completed(Normal(stack[|stack| - 1])) else Stuck
      case InvokeReplaceProgramPoint =>
        if |stack| >= 2 && stack[|stack| - 1].IntValue? && stack[|stack| - 2].OptimismException? then
          var e := stack[|stack| - 2];
          Exec(code, pc + 1, stack[..|stack| - 2] + [OptimismException(e.returnValue, stack[|stack| - 1].i)], inTry, locals, rt)
        else Stuck
      case Athrow =>
        if |stack| >= 1 && stack[|stack| - 1].OptimismException? then
          Completed(Unwarranted(stack[|stack| - 1].returnValue, stack[|stack| - 1].programPoint))
        else Stuck
      case InvokeStatic(_, _, _) => Stuck
  }

  /** Continues after a dynamic operation at `pc`: push its value, or transfer its exception to the handler if one is open. */
  function Continue(code: seq<Insn>, pc: nat, stack: seq<Value>, inTry: bool, locals: map<nat, Value>, rt: Runtime, o: Outcome): Run
    requires pc < |code|
    decreases |code| - pc, 0
  {
    match o
    case Normal(v) => Exec(code, pc + 1, stack + [v], inTry, locals, rt)
    case Unwarranted(v, p) =>
      var h := FindFrom(code, pc + 1, CatchStart);
      if inTry && h < |code| then Exec(code, h + 1, [OptimismException(v, p)], false, locals, rt)
      else Completed(Unwarranted(v, p))
  }

  /** The local-variable slots of a frame whose parameters have `types` and values `args`, starting at `base`. */
  function Locals(types: seq<Type>, args: seq<Value>, base: nat): map<nat, Value>
    requires |types| == |args|
    decreases |types|
  {
    if |types| == 0 then map[]
    else Locals(types[1..], args[1..], base + types[0].Slots())[base := args[0]]
  }

  /** Runs the shared method on an invocation, with the frame laid out by its static signature. */
  function Invoke(c: SharedScopeCall, code: seq<Insn>, inv: Invocation, rt: Runtime): Run
  {
    var params := StaticSignature(c).params;
    var args := [inv.scope, IntValue(inv.depth), IntValue(inv.programPoint)] + inv.args;
    if |params| == |args| then Exec(code, 0, [], false, Locals(params, args, 0), rt) else Stuck
  }

  /** An invocation passing one argument per declared parameter. */
  predicate WellFormed(c: SharedScopeCall, inv: Invocation)
  {
    match c.paramTypes
    case None => inv.args == []
    case Some(ps) => |inv.args| == |ps|
  }

  /** Argument `i` sits in slot `base` plus the widths of the arguments before it. */
  lemma {:induction false} LocalsAt(types: seq<Type>, args: seq<Value>, base: nat, i: nat)
    requires |types| == |args| && i < |types|
    ensures base + SlotWidth(types[..i]) in Locals(types, args, base)
    ensures Locals(types, args, base)[base + SlotWidth(types[..i])] == args[i]
    decreases i
  {
    if i > 0 {
      var rest := base + types[0].Slots();
      LocalsAt(types[1..], args[1..], rest, i - 1);
      assert types[..i] == [types[0]] + types[1..][..i - 1];
      SlotWidthAppend([types[0]], types[1..][..i - 1]);
    }
  }

  /** The instructions `code[pc..pc + |vals|]` load `vals` in order. */
  ghost predicate LoadsAt(code: seq<Insn>, pc: nat, vals: seq<Value>, locals: map<nat, Value>)
  {
    && pc + |vals| <= |code|
    && forall j :: pc <= j < pc + |vals| ==>
         code[j].Load? && code[j].slot in locals && locals[code[j].slot] == vals[j - pc]
  }

  lemma {:induction false} ExecLoads(code: seq<Insn>, pc: nat, stack: seq<Value>, inTry: bool,
                                     locals: map<nat, Value>, rt: Runtime, vals: seq<Value>)
    requires LoadsAt(code, pc, vals, locals)
    ensures Exec(code, pc, stack, inTry, locals, rt) == Exec(code, pc + |vals|, stack + vals, inTry, locals, rt)
    decreases |vals|
  {
    if |vals| > 0 {
      assert code[pc].Load? && code[pc].slot in locals && locals[code[pc].slot] == vals[0];
      assert Exec(code, pc, stack, inTry, locals, rt) == Exec(code, pc + 1, stack + [vals[0]], inTry, locals, rt);
      ExecLoads(code, pc + 1, stack + [vals[0]], inTry, locals, rt, vals[1..]);
      assert stack + [vals[0]] + vals[1..] == stack + vals;
    } else {
      assert stack + vals == stack;
    }
  }

  /** In the frame of a well-formed invocation, slots 0, 1, 2 hold the fixed arguments and the parameter loads find their arguments. */
  lemma FrameLayout(c: SharedScopeCall, inv: Invocation)
    requires Valid(c) && WellFormed(c, inv)
    ensures var params := StaticSignature(c).params;
            var args := [inv.scope, IntValue(inv.depth), IntValue(inv.programPoint)] + inv.args;
            && |params| == |args|
            && var locals := Locals(params, args, 0);
            && 0 in locals && locals[0] == inv.scope
            && 1 in locals && locals[1] == IntValue(inv.depth)
            && 2 in locals && locals[2] == IntValue(inv.programPoint)
            && (c.isCall ==> LoadsAt(ParamLoads(c.paramTypes.value, FixedParamCount), 0, inv.args, locals))
  {
    FixedSlots(c, inv);
    if c.isCall {
      ParamSlots(c, inv);
    }
  }

  lemma FixedSlots(c: SharedScopeCall, inv: Invocation)
    requires Valid(c) && WellFormed(c, inv)
    ensures var params := StaticSignature(c).params;
            var args := [inv.scope, IntValue(inv.depth), IntValue(inv.programPoint)] + inv.args;
            && |params| == |args|
            && var locals := Locals(params, args, 0);
            && 0 in locals && locals[0] == inv.scope
            && 1 in locals && locals[1] == IntValue(inv.depth)
            && 2 in locals && locals[2] == IntValue(inv.programPoint)
  {
    var params := StaticSignature(c).params;
    var args := [inv.scope, IntValue(inv.depth), IntValue(inv.programPoint)] + inv.args;
    LocalsAt(params, args, 0, 0);
    LocalsAt(params, args, 0, 1);
    assert params[..1] == [ScriptObjectT];
    LocalsAt(params, args, 0, 2);
    assert params[..2] == [ScriptObjectT, IntType];
    assert SlotWidth([IntType]) == 1;
  }

  lemma ParamSlots(c: SharedScopeCall, inv: Invocation)
    requires Valid(c) && WellFormed(c, inv) && c.isCall
    ensures var params := StaticSignature(c).params;
            var args := [inv.scope, IntValue(inv.depth), IntValue(inv.programPoint)] + inv.args;
            && |params| == |args|
            && LoadsAt(ParamLoads(c.paramTypes.value, FixedParamCount), 0, inv.args, Locals(params, args, 0))
  {
    var params := StaticSignature(c).params;
    var args := [inv.scope, IntValue(inv.depth), IntValue(inv.programPoint)] + inv.args;
    var ps := c.paramTypes.value;
    var locals := Locals(params, args, 0);
    assert SlotWidth(FixedParams) == 3 by {
      assert FixedParams[1..] == [IntType, IntType];
      assert [IntType, IntType][1..] == [IntType];
      assert SlotWidth([IntType]) == 1;
    }
    forall i | 0 <= i < |inv.args|
      ensures ParamLoads(ps, FixedParamCount)[i].Load?
      ensures ParamLoads(ps, FixedParamCount)[i].slot in locals
      ensures locals[ParamLoads(ps, FixedParamCount)[i].slot] == inv.args[i]
    {
      ParamLoadsSlots(ps, FixedParamCount, i);
      LocalsAt(params, args, 0, FixedParamCount + i);
      assert params[..FixedParamCount + i] == FixedParams + ps[..i];
      SlotWidthAppend(FixedParams, ps[..i]);
    }
  }

  /** Runs the call part and returns, when the callee was fetched. */
  lemma ExecCallPart(c: SharedScopeCall, code: seq<Insn>, pc: nat, inTry: bool, locals: map<nat, Value>,
                     rt: Runtime, f: Value, inv: Invocation)
    requires Valid(c) && c.isCall && WellFormed(c, inv)
    requires pc + |CallPart(c)| < |code| && code[pc..pc + |CallPart(c)|] == CallPart(c)
    requires LoadsAt(ParamLoads(c.paramTypes.value, FixedParamCount), 0, inv.args, locals)
    ensures var o := rt.dynamicCall([f, Undefined] + inv.args, CallSite(c.symbol.name, c.returnType, CallFlags(c)));
            Exec(code, pc, [f], inTry, locals, rt) == Continue(code, pc + |CallPart(c)| - 1, [], inTry, locals, rt, o)
  {
    var ps := c.paramTypes.value;
    var n := |ps|;
    var part := CallPart(c);
    assert code[pc] == part[0] == Convert(ObjectT);
    assert code[pc + 1] == part[1] == LoadUndefined(ObjectT);
    assert LoadsAt(code, pc + 2, inv.args, locals) by {
      forall i | 0 <= i < n
        ensures code[pc + 2 + i] == ParamLoads(ps, FixedParamCount)[i]
      {
        assert code[pc + 2 + i] == part[2 + i];
      }
    }
    assert Exec(code, pc, [f], inTry, locals, rt) == Exec(code, pc + 2, [f, Undefined], inTry, locals, rt) by {
      assert Exec(code, pc, [f], inTry, locals, rt) == Exec(code, pc + 1, [f], inTry, locals, rt);
      assert [f] + [Undefined] == [f, Undefined];
    }
    ExecLoads(code, pc + 2, [f, Undefined], inTry, locals, rt, inv.args);
    assert code[pc + 2 + n] == part[2 + n] == DynamicCall(c.returnType, 2 + n, CallFlags(c), c.symbol.name);
    var st := [f, Undefined] + inv.args;
    assert |st| == 2 + n;
    assert st[|st| - (2 + n)..] == st;
    assert st[..|st| - (2 + n)] == [];
    assert pc + |part| - 1 == pc + 2 + n;
  }

  /** The frame of an invocation of the shared method. */
  function Frame(c: SharedScopeCall, inv: Invocation): map<nat, Value>
    requires WellFormed(c, inv)
  {
    var params := StaticSignature(c).params;
    var args := [inv.scope, IntValue(inv.depth), IntValue(inv.programPoint)] + inv.args;
    Locals(params, args, 0)
  }

  /** The scope lookup: the method starts by replacing the scope argument with its `depth`-th prototype. */
  lemma ExecScopeLoad(c: SharedScopeCall, inv: Invocation, rt: Runtime)
    requires Valid(c) && WellFormed(c, inv)
    ensures var code := ScopeCallCode(c);
            var g := if c.isOptimistic then 4 else 3;
            Invoke(c, code, inv, rt)
              == Exec(code, g, [rt.getProto(inv.scope, inv.depth)], c.isOptimistic, Frame(c, inv), rt)
  {
    FrameLayout(c, inv);
    var locals := Frame(c, inv);
    var code := ScopeCallCode(c);
    var target := rt.getProto(inv.scope, inv.depth);
    assert code[0] == Load(ObjectT, 0) && code[1] == Load(IntType, 1) && code[2] == InvokeGetProtoDepth;
    assert 0 in locals && locals[0] == inv.scope && 1 in locals && locals[1] == IntValue(inv.depth);
    assert [] + [inv.scope] == [inv.scope];
    assert Exec(code, 0, [], false, locals, rt) == Exec(code, 1, [inv.scope], false, locals, rt);
    assert Exec(code, 1, [inv.scope], false, locals, rt)
        == Exec(code, 2, [inv.scope, IntValue(inv.depth)], false, locals, rt);
    assert [inv.scope, IntValue(inv.depth)][..0] + [target] == [target];
    assert Exec(code, 2, [inv.scope, IntValue(inv.depth)], false, locals, rt) == Exec(code, 3, [target], false, locals, rt);
    if c.isOptimistic {
      assert code[3] == TryStart;
    }
  }

  lemma NonOptimisticCode(c: SharedScopeCall, inv: Invocation, rt: Runtime)
    requires Valid(c) && WellFormed(c, inv) && !c.isOptimistic
    ensures Invoke(c, ScopeCallCode(c), inv, rt) == Completed(Underlying(c, inv, rt))
  {
    ExecScopeLoad(c, inv, rt);
    FrameLayout(c, inv);
    var locals := Frame(c, inv);
    var code := ScopeCallCode(c);
    var target := rt.getProto(inv.scope, inv.depth);
    var got := rt.dynamicGet(target, GetSite(c.symbol.name, c.valueType, GetFlags(c), c.isCall));
    var part := CallPart(c);
    var after := 4 + |part|;
    assert code[3] == GetInsn(c);
    assert code[4..after] == part;
    assert code[after] == Return(c.returnType);
    assert after + 1 == |code|;
    assert Exec(code, 3, [target], false, locals, rt) == Continue(code, 3, [], false, locals, rt, got) by {
      assert [target][..0] == [];
    }
    if c.isCall && got.Normal? {
      assert [] + [got.value] == [got.value];
      ExecCallPart(c, code, 4, false, locals, rt, got.value, inv);
    } else if got.Normal? {
      assert after == 4;
      assert [] + [got.value] == [got.value];
      assert Exec(code, 4, [got.value], false, locals, rt) == Completed(Normal(got.value));
    }
  }

  /** Where each part of an optimistic method's body sits. */
  lemma OptimisticLayout(c: SharedScopeCall)
    requires Valid(c) && c.isOptimistic
    ensures var code := ScopeCallCode(c);
            var after := 5 + |CallPart(c)|;
            && |code| == after + 6
            && code[3] == TryStart && code[4] == GetInsn(c)
            && code[5..after] == CallPart(c)
            && code[after] == TryEnd && code[after + 1] == Return(c.returnType)
            && code[after + 2..] == CatchHandler
  {
    var part := CallPart(c);
    var after := 5 + |part|;
    var code := ScopeCallCode(c);
    var pre := ScopeLoad + [TryStart, GetInsn(c)];
    assert code == pre + part + [TryEnd, Return(c.returnType)] + CatchHandler;
    assert code[after + 2..] == CatchHandler;
  }

  /** In an optimistic method, the handler found from anywhere inside the try region is the one at the end. */
  lemma HandlerFound(c: SharedScopeCall, from: nat)
    requires Valid(c) && c.isOptimistic
    requires 5 <= from <= |ScopeCallCode(c)| - 4
    ensures var code := ScopeCallCode(c);
            && code[|code| - 4..] == CatchHandler
            && FindFrom(code, from, CatchStart) == |code| - 4
  {
    OptimisticLayout(c);
    var code := ScopeCallCode(c);
    var part := CallPart(c);
    var after := 5 + |part|;
    assert CatchStart !in part by { HandlerIffOptimistic(c.(isOptimistic := false)); }
    assert code[after + 2] == CatchStart;
    forall k | from <= k < after + 2 ensures code[k] != CatchStart {
      if k < after { assert code[k] == code[5..after][k - 5]; }
    }
    var r := FindFrom(code, from, CatchStart);
    assert r <= after + 2;
  }

  lemma OptimisticCode(c: SharedScopeCall, inv: Invocation, rt: Runtime)
    requires Valid(c) && WellFormed(c, inv) && c.isOptimistic
    ensures Invoke(c, ScopeCallCode(c), inv, rt) == Completed(Reference(c, inv, rt))
  {
    var code := ScopeCallCode(c);
    var target := rt.getProto(inv.scope, inv.depth);
    var got := rt.dynamicGet(target, GetSite(c.symbol.name, c.valueType, GetFlags(c), c.isCall));
    OptimisticGet(c, inv, rt);
    if got.Unwarranted? {
      OptimisticGetFails(c, inv, rt, got);
    } else if c.isCall {
      assert [] + [got.value] == [got.value];
      OptimisticLayout(c);
      OptimisticCallTail(c, inv, rt, got.value);
    } else {
      OptimisticReturn(c, inv, rt, got);
    }
  }

  /** An optimistic method runs the scope lookup, enters the try region and performs the dynamic get. */
  lemma OptimisticGet(c: SharedScopeCall, inv: Invocation, rt: Runtime)
    requires Valid(c) && WellFormed(c, inv) && c.isOptimistic
    ensures var target := rt.getProto(inv.scope, inv.depth);
            var got := rt.dynamicGet(target, GetSite(c.symbol.name, c.valueType, GetFlags(c), c.isCall));
            Invoke(c, ScopeCallCode(c), inv, rt) == Continue(ScopeCallCode(c), 4, [], true, Frame(c, inv), rt, got)
  {
    ExecScopeLoad(c, inv, rt);
    OptimisticLayout(c);
    var target := rt.getProto(inv.scope, inv.depth);
    assert [target][..0] == [];
  }

  /** A get that fails its optimism inside the try region goes straight to the handler. */
  lemma OptimisticGetFails(c: SharedScopeCall, inv: Invocation, rt: Runtime, got: Outcome)
    requires Valid(c) && WellFormed(c, inv) && c.isOptimistic && got.Unwarranted?
    ensures Continue(ScopeCallCode(c), 4, [], true, Frame(c, inv), rt, got)
              == Completed(Unwarranted(got.returnValue, inv.programPoint))
  {
    var code := ScopeCallCode(c);
    FrameLayout(c, inv);
    HandlerFound(c, 5);
    HandlerRestamps(code, |code| - 4, Frame(c, inv), rt, inv.programPoint);
  }

  /** An optimistic call, once the callee is fetched: the call's outcome, restamped if optimism failed. */
  lemma OptimisticCallTail(c: SharedScopeCall, inv: Invocation, rt: Runtime, f: Value)
    requires Valid(c) && WellFormed(c, inv) && c.isOptimistic && c.isCall
    ensures var code := ScopeCallCode(c);
            var o := rt.dynamicCall([f, Undefined] + inv.args, CallSite(c.symbol.name, c.returnType, CallFlags(c)));
            Exec(code, 5, [f], true, Frame(c, inv), rt)
              == Completed(if o.Unwarranted? then Unwarranted(o.returnValue, inv.programPoint) else o)
  {
    FrameLayout(c, inv);
    OptimisticLayout(c);
    var code := ScopeCallCode(c);
    ExecCallPart(c, code, 5, true, Frame(c, inv), rt, f, inv);
    var o := rt.dynamicCall([f, Undefined] + inv.args, CallSite(c.symbol.name, c.returnType, CallFlags(c)));
    OptimisticReturn(c, inv, rt, o);
  }

  /** After the speculative operation of an optimistic method: return its value, or restamp and rethrow its failure. */
  lemma OptimisticReturn(c: SharedScopeCall, inv: Invocation, rt: Runtime, o: Outcome)
    requires Valid(c) && WellFormed(c, inv) && c.isOptimistic
    ensures var code := ScopeCallCode(c);
            Continue(code, 4 + |CallPart(c)|, [], true, Frame(c, inv), rt, o)
              == Completed(if o.Unwarranted? then Unwarranted(o.returnValue, inv.programPoint) else o)
  {
    FrameLayout(c, inv);
    OptimisticLayout(c);
    var locals := Frame(c, inv);
    var code := ScopeCallCode(c);
    var after := 5 + |CallPart(c)|;
    if o.Normal? {
      assert [] + [o.value] == [o.value];
      assert Exec(code, after, [o.value], true, locals, rt) == Exec(code, after + 1, [o.value], false, locals, rt);
    } else {
      HandlerFound(c, after);
      HandlerRestamps(code, after + 2, locals, rt, inv.programPoint);
    }
  }

  /** The handler replaces the exception's program point with argument 2 and rethrows it. */
  lemma HandlerRestamps(code: seq<Insn>, h: nat, locals: map<nat, Value>, rt: Runtime, pp: int)
    requires h + 4 == |code| && code[h..] == CatchHandler
    requires 2 in locals && locals[2] == IntValue(pp)
    ensures forall v, p :: Exec(code, h + 1, [OptimismException(v, p)], false, locals, rt)
                           == Completed(Unwarranted(v, pp))
  {
    assert code[h + 1] == Load(IntType, 2);
    assert code[h + 2] == InvokeReplaceProgramPoint;
    assert code[h + 3] == Athrow;
    forall v, p
      ensures Exec(code, h + 1, [OptimismException(v, p)], false, locals, rt) == Completed(Unwarranted(v, pp))
    {
      var e := OptimismException(v, p);
      assert Exec(code, h + 1, [e], false, locals, rt) == Exec(code, h + 2, [e, IntValue(pp)], false, locals, rt);
      assert [e, IntValue(pp)][..0] + [OptimismException(v, pp)] == [OptimismException(v, pp)];
      assert Exec(code, h + 2, [e, IntValue(pp)], false, locals, rt)
          == Exec(code, h + 3, [OptimismException(v, pp)], false, locals, rt);
    }
  }

  /** The emitted instructions do exactly what `Reference` says, on every well-formed invocation and every runtime. */
  lemma GeneratedCodeImplementsReference(c: SharedScopeCall, inv: Invocation, rt: Runtime)
    requires Valid(c) && WellFormed(c, inv)
    ensures Invoke(c, ScopeCallCode(c), inv, rt) == Completed(Reference(c, inv, rt))
  {
    if c.isOptimistic {
      OptimisticCode(c, inv, rt);
    } else {
      NonOptimisticCode(c, inv, rt);
    }
  }

  /** The emitted body implements the reference semantics on every well-formed invocation and every runtime. */
  lemma ScopeCallCodeImplementsReference(c: SharedScopeCall)
    requires Valid(c)
    ensures forall inv, rt :: WellFormed(c, inv) ==> Invoke(c, ScopeCallCode(c), inv, rt) == Completed(Reference(c, inv, rt))
  {
    forall inv, rt | WellFormed(c, inv)
      ensures Invoke(c, ScopeCallCode(c), inv, rt) == Completed(Reference(c, inv, rt))
    {
      GeneratedCodeImplementsReference(c, inv, rt);
    }
  }

  /** An optimistic shared method rethrows a failed optimism with the caller's program point, and otherwise returns what the operation returned. */
  lemma OptimisticMethodRestampsProgramPoint(c: SharedScopeCall, inv: Invocation, rt: Runtime)
    requires Valid(c) && WellFormed(c, inv) && c.isOptimistic
    ensures var run := Invoke(c, ScopeCallCode(c), inv, rt);
            var raw := Underlying(c, inv, rt);
            && run.Completed?
            && (raw.Normal? ==> run.outcome == raw)
            && (raw.Unwarranted? ==> run.outcome == Unwarranted(raw.returnValue, inv.programPoint))
  {
    GeneratedCodeImplementsReference(c, inv, rt);
  }

  /** A non-optimistic shared method installs no handler: the operation's outcome passes through untouched. */
  lemma NonOptimisticMethodPassesThrough(c: SharedScopeCall, inv: Invocation, rt: Runtime)
    requires Valid(c) && WellFormed(c, inv) && !c.isOptimistic
    ensures Invoke(c, ScopeCallCode(c), inv, rt) == Completed(Underlying(c, inv, rt))
  {
    GeneratedCodeImplementsReference(c, inv, rt);
  }
}
