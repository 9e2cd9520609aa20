/** Swift mirrors of three backend enumerations, each with a conversion in
    both directions.  The backend's constants are modelled as pairwise
    distinct values: one constructor per constant the mirror names, and one
    more standing for every constant it does not. */

/** `Linkage` (`LLVM/Linkage.swift`). */
module Linkages {
  import opened Wrappers

  /** How names can or cannot be referred to. */
  datatype Linkage =
    | external | availableExternally | linkOnceAny | linkOnceODR | weak
    | weakODR | appending | internal | private | externWeak

  /** `LLVMLinkage`. */
  datatype LlvmLinkage =
    | LLVMExternalLinkage | LLVMAvailableExternallyLinkage | LLVMLinkOnceAnyLinkage
    | LLVMLinkOnceODRLinkage | LLVMWeakAnyLinkage | LLVMWeakODRLinkage
    | LLVMAppendingLinkage | LLVMInternalLinkage | LLVMPrivateLinkage
    | LLVMExternalWeakLinkage
    | OtherLinkage(code: nat)

  /** `init(llvm:)`; `None` is the fatal error for an unsupported constant. */
  function FromLlvm(c: LlvmLinkage): (r: Option<Linkage>)
    ensures r.None? <==> c.OtherLinkage?
    ensures c == LLVMWeakAnyLinkage <==> r == Some(weak)
    ensures c == LLVMExternalWeakLinkage <==> r == Some(externWeak)
  {
    match c
    case LLVMExternalLinkage => Some(external)
    case LLVMAvailableExternallyLinkage => Some(availableExternally)
    case LLVMLinkOnceAnyLinkage => Some(linkOnceAny)
    case LLVMLinkOnceODRLinkage => Some(linkOnceODR)
    case LLVMWeakAnyLinkage => Some(weak)
    case LLVMWeakODRLinkage => Some(weakODR)
    case LLVMAppendingLinkage => Some(appending)
    case LLVMInternalLinkage => Some(internal)
    case LLVMPrivateLinkage => Some(private)
    case LLVMExternalWeakLinkage => Some(externWeak)
    case OtherLinkage(_) => None
  }

  /** `llvm`: every case has a constant of its own. */
  function ToLlvm(l: Linkage): (c: LlvmLinkage)
    ensures !c.OtherLinkage?
    ensures l == weak <==> c == LLVMWeakAnyLinkage
    ensures l == externWeak <==> c == LLVMExternalWeakLinkage
  {
    match l
    case external => LLVMExternalLinkage
    case availableExternally => LLVMAvailableExternallyLinkage
    case linkOnceAny => LLVMLinkOnceAnyLinkage
    case linkOnceODR => LLVMLinkOnceODRLinkage
    case weak => LLVMWeakAnyLinkage
    case weakODR => LLVMWeakODRLinkage
    case appending => LLVMAppendingLinkage
    case internal => LLVMInternalLinkage
    case private => LLVMPrivateLinkage
    case externWeak => LLVMExternalWeakLinkage
  }

  /** Converting a case to the backend and back loses nothing. */
  lemma RoundTrip(l: Linkage)
    ensures FromLlvm(ToLlvm(l)) == Some(l)
  {
  }

  /** Every supported constant comes back to itself. */
  lemma LlvmRoundTrip(c: LlvmLinkage)
    requires FromLlvm(c).Some?
    ensures ToLlvm(FromLlvm(c).value) == c
  {
  }

  /** Distinct cases have distinct constants. */
  lemma ToLlvmInjective(a: Linkage, b: Linkage)
    requires ToLlvm(a) == ToLlvm(b)
    ensures a == b
  {
    RoundTrip(a);
    RoundTrip(b);
  }

  /** A global variable or function declaration may only have external or
      extern-weak linkage. */
  predicate ValidForDeclaration(l: Linkage) {
    l == external || l == externWeak
  }

  /** The linkages allowed on a declaration are exactly those whose backend
      constant is `LLVMExternalLinkage` or `LLVMExternalWeakLinkage`, in
      both directions of the mirror. */
  lemma DeclarationLinkages(l: Linkage, c: LlvmLinkage)
    ensures ValidForDeclaration(l) <==>
      ToLlvm(l) == LLVMExternalLinkage || ToLlvm(l) == LLVMExternalWeakLinkage
    ensures FromLlvm(c).Some? && ValidForDeclaration(FromLlvm(c).value) <==>
      c == LLVMExternalLinkage || c == LLVMExternalWeakLinkage
  {
  }
}

/** `AtomicOrdering` (`SwiftyLLVM/AtomicOrdering.swift`). */
module AtomicOrderings {
  import opened Wrappers

  /** The ordering for an atomic operation. */
  datatype AtomicOrdering =
    | notAtomic | unordered | monotonic | acquire | release
    | acquireRelease | sequentiallyConsistent

  /** `LLVMAtomicOrdering`. */
  datatype LlvmAtomicOrdering =
    | LLVMAtomicOrderingNotAtomic | LLVMAtomicOrderingUnordered
    | LLVMAtomicOrderingMonotonic | LLVMAtomicOrderingAcquire
    | LLVMAtomicOrderingRelease | LLVMAtomicOrderingAcquireRelease
    | LLVMAtomicOrderingSequentiallyConsistent
    | OtherOrdering(code: nat)

  /** `init(llvm:)`; `None` is the fatal error for an unsupported constant. */
  function FromLlvm(c: LlvmAtomicOrdering): (r: Option<AtomicOrdering>)
    ensures r.None? <==> c.OtherOrdering?
    ensures c == LLVMAtomicOrderingAcquireRelease <==> r == Some(acquireRelease)
  {
    match c
    case LLVMAtomicOrderingNotAtomic => Some(notAtomic)
    case LLVMAtomicOrderingUnordered => Some(unordered)
    case LLVMAtomicOrderingMonotonic => Some(monotonic)
    case LLVMAtomicOrderingAcquire => Some(acquire)
    case LLVMAtomicOrderingRelease => Some(release)
    case LLVMAtomicOrderingAcquireRelease => Some(acquireRelease)
    case LLVMAtomicOrderingSequentiallyConsistent => Some(sequentiallyConsistent)
    case OtherOrdering(_) => None
  }

  /** `llvm`: every case has a constant of its own. */
  function ToLlvm(o: AtomicOrdering): (c: LlvmAtomicOrdering)
    ensures !c.OtherOrdering?
    ensures o == acquireRelease <==> c == LLVMAtomicOrderingAcquireRelease
  {
    match o
    case notAtomic => LLVMAtomicOrderingNotAtomic
    case unordered => LLVMAtomicOrderingUnordered
    case monotonic => LLVMAtomicOrderingMonotonic
    case acquire => LLVMAtomicOrderingAcquire
    case release => LLVMAtomicOrderingRelease
    case acquireRelease => LLVMAtomicOrderingAcquireRelease
    case sequentiallyConsistent => LLVMAtomicOrderingSequentiallyConsistent
  }

  /** Converting a case to the backend and back loses nothing. */
  lemma RoundTrip(o: AtomicOrdering)
    ensures FromLlvm(ToLlvm(o)) == Some(o)
  {
  }

  /** Every supported constant comes back to itself. */
  lemma LlvmRoundTrip(c: LlvmAtomicOrdering)
    requires FromLlvm(c).Some?
    ensures ToLlvm(FromLlvm(c).value) == c
  {
  }

  /** Distinct cases have distinct constants. */
  lemma ToLlvmInjective(a: AtomicOrdering, b: AtomicOrdering)
    requires ToLlvm(a) == ToLlvm(b)
    ensures a == b
  {
    RoundTrip(a);
    RoundTrip(b);
  }
}

/** `AtomicRMWBinOp` (`SwiftyLLVM/AtomicRMWBinOp.swift`). */
module AtomicRmwBinOps {
  import opened Wrappers

  /** The type of an atomic read-modify-write binary operation. */
  datatype AtomicRmwBinOp =
    | xchg | add | sub | and | nand | or | xor | max | min
    | uMax | uMin | fAdd | fSub | fMax | fMin

  /** `LLVMAtomicRMWBinOp`. */
  datatype LlvmAtomicRmwBinOp =
    | LLVMAtomicRMWBinOpXchg | LLVMAtomicRMWBinOpAdd | LLVMAtomicRMWBinOpSub
    | LLVMAtomicRMWBinOpAnd | LLVMAtomicRMWBinOpNand | LLVMAtomicRMWBinOpOr
    | LLVMAtomicRMWBinOpXor | LLVMAtomicRMWBinOpMax | LLVMAtomicRMWBinOpMin
    | LLVMAtomicRMWBinOpUMax | LLVMAtomicRMWBinOpUMin | LLVMAtomicRMWBinOpFAdd
    | LLVMAtomicRMWBinOpFSub | LLVMAtomicRMWBinOpFMax | LLVMAtomicRMWBinOpFMin
    | OtherBinOp(code: nat)

  /** `init(llvm:)`; `None` is the fatal error for an unsupported constant. */
  function FromLlvm(c: LlvmAtomicRmwBinOp): (r: Option<AtomicRmwBinOp>)
    ensures r.None? <==> c.OtherBinOp?
    ensures c == LLVMAtomicRMWBinOpUMax <==> r == Some(uMax)
    ensures c == LLVMAtomicRMWBinOpMax <==> r == Some(max)
  {
    match c
    case LLVMAtomicRMWBinOpXchg => Some(xchg)
    case LLVMAtomicRMWBinOpAdd => Some(add)
    case LLVMAtomicRMWBinOpSub => Some(sub)
    case LLVMAtomicRMWBinOpAnd => Some(and)
    case LLVMAtomicRMWBinOpNand => Some(nand)
    case LLVMAtomicRMWBinOpOr => Some(or)
    case LLVMAtomicRMWBinOpXor => Some(xor)
    case LLVMAtomicRMWBinOpMax => Some(max)
    case LLVMAtomicRMWBinOpMin => Some(min)
    case LLVMAtomicRMWBinOpUMax => Some(uMax)
    case LLVMAtomicRMWBinOpUMin => Some(uMin)
    case LLVMAtomicRMWBinOpFAdd => Some(fAdd)
    case LLVMAtomicRMWBinOpFSub => Some(fSub)
    case LLVMAtomicRMWBinOpFMax => Some(fMax)
    case LLVMAtomicRMWBinOpFMin => Some(fMin)
    case OtherBinOp(_) => None
  }

  /** `llvm`: every case has a constant of its own. */
  function ToLlvm(op: AtomicRmwBinOp): (c: LlvmAtomicRmwBinOp)
    ensures !c.OtherBinOp?
    ensures op == uMax <==> c == LLVMAtomicRMWBinOpUMax
    ensures op == max <==> c == LLVMAtomicRMWBinOpMax
  {
    match op
    case xchg => LLVMAtomicRMWBinOpXchg
    case add => LLVMAtomicRMWBinOpAdd
    case sub => LLVMAtomicRMWBinOpSub
    case and => LLVMAtomicRMWBinOpAnd
    case nand => LLVMAtomicRMWBinOpNand
    case or => LLVMAtomicRMWBinOpOr
    case xor => LLVMAtomicRMWBinOpXor
    case max => LLVMAtomicRMWBinOpMax
    case min => LLVMAtomicRMWBinOpMin
    case uMax => LLVMAtomicRMWBinOpUMax
    case uMin => LLVMAtomicRMWBinOpUMin
    case fAdd => LLVMAtomicRMWBinOpFAdd
    case fSub => LLVMAtomicRMWBinOpFSub
    case fMax => LLVMAtomicRMWBinOpFMax
    case fMin => LLVMAtomicRMWBinOpFMin
  }

  /** Converting a case to the backend and back loses nothing. */
  lemma RoundTrip(op: AtomicRmwBinOp)
    ensures FromLlvm(ToLlvm(op)) == Some(op)
  {
  }

  /** Every supported constant comes back to itself. */
  lemma LlvmRoundTrip(c: LlvmAtomicRmwBinOp)
    requires FromLlvm(c).Some?
    ensures ToLlvm(FromLlvm(c).value) == c
  {
  }

  /** Distinct cases have distinct constants. */
  lemma ToLlvmInjective(a: AtomicRmwBinOp, b: AtomicRmwBinOp)
    requires ToLlvm(a) == ToLlvm(b)
    ensures a == b
  {
    RoundTrip(a);
    RoundTrip(b);
  }
}
