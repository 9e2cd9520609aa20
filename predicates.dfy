/** The comparison predicates of the instruction builder.  Each is a
    string-backed enumeration: `description` is the raw text and `init?(_:)`
    parses it back, and `llvm` names the backend's constant. */

/** `FloatingPointPredicate`. */
module FloatingPointPredicates {
  import opened Wrappers

  datatype FloatingPointPredicate =
    | alwaysFalse | alwaysTrue
    | oeq | one | ogt | oge | olt | ole | ord
    | ueq | une | ugt | uge | ult | ule | uno

  /** `LLVMRealPredicate`. */
  datatype LlvmRealPredicate =
    | LLVMRealPredicateFalse | LLVMRealPredicateTrue
    | LLVMRealOEQ | LLVMRealONE | LLVMRealOGT | LLVMRealOGE | LLVMRealOLT
    | LLVMRealOLE | LLVMRealORD | LLVMRealUEQ | LLVMRealUNE | LLVMRealUGT
    | LLVMRealUGE | LLVMRealULT | LLVMRealULE | LLVMRealUNO

  /** `description`, the raw value: "false" and "true" for the two constant
      predicates, the case name for every other. */
  function Description(p: FloatingPointPredicate): string {
    match p
    case alwaysFalse => "false"
    case alwaysTrue => "true"
    case oeq => "oeq" case one => "one" case ogt => "ogt" case oge => "oge"
    case olt => "olt" case ole => "ole" case ord => "ord"
    case ueq => "ueq" case une => "une" case ugt => "ugt" case uge => "uge"
    case ult => "ult" case ule => "ule" case uno => "uno"
  }

  /** `init?(_:)`, through `init(rawValue:)`: the predicate whose text is
      `s`, and `nil` for any other string. */
  function Parse(s: string): (r: Option<FloatingPointPredicate>)
    ensures r.Some? ==> Description(r.value) == s
    ensures r.None? <==> forall p :: Description(p) != s
  {
    if s == "false" then Some(alwaysFalse)
    else if s == "true" then Some(alwaysTrue)
    else if s == "oeq" then Some(oeq)
    else if s == "one" then Some(one)
    else if s == "ogt" then Some(ogt)
    else if s == "oge" then Some(oge)
    else if s == "olt" then Some(olt)
    else if s == "ole" then Some(ole)
    else if s == "ord" then Some(ord)
    else if s == "ueq" then Some(ueq)
    else if s == "une" then Some(une)
    else if s == "ugt" then Some(ugt)
    else if s == "uge" then Some(uge)
    else if s == "ult" then Some(ult)
    else if s == "ule" then Some(ule)
    else if s == "uno" then Some(uno)
    else
      assert forall p :: Description(p) != s by {
        forall p ensures Description(p) != s {
          DescriptionIsListed(p);
        }
      }
      None
  }

  /** Every text is one of the sixteen spelled out by `Parse`. */
  lemma DescriptionIsListed(p: FloatingPointPredicate)
    ensures Description(p) in ["false", "true", "oeq", "one", "ogt", "oge",
      "olt", "ole", "ord", "ueq", "une", "ugt", "uge", "ult", "ule", "uno"]
  {
  }

  /** Parsing a predicate's text gives the predicate back. */
  lemma ParseDescription(p: FloatingPointPredicate)
    ensures Parse(Description(p)) == Some(p)
  {
  }

  /** The sixteen texts are pairwise distinct. */
  lemma DescriptionInjective(p: FloatingPointPredicate, q: FloatingPointPredicate)
    requires Description(p) == Description(q)
    ensures p == q
  {
    ParseDescription(p);
    ParseDescription(q);
  }

  /** `llvm`. */
  function ToLlvm(p: FloatingPointPredicate): LlvmRealPredicate {
    match p
    case alwaysFalse => LLVMRealPredicateFalse
    case alwaysTrue => LLVMRealPredicateTrue
    case oeq => LLVMRealOEQ case one => LLVMRealONE case ogt => LLVMRealOGT
    case oge => LLVMRealOGE case olt => LLVMRealOLT case ole => LLVMRealOLE
    case ord => LLVMRealORD case ueq => LLVMRealUEQ case une => LLVMRealUNE
    case ugt => LLVMRealUGT case uge => LLVMRealUGE case ult => LLVMRealULT
    case ule => LLVMRealULE case uno => LLVMRealUNO
  }

  /** Distinct predicates have distinct constants, e.g. `ueq` is `LLVMRealUEQ`
      and no other predicate is. */
  lemma ToLlvmInjective(p: FloatingPointPredicate, q: FloatingPointPredicate)
    requires ToLlvm(p) == ToLlvm(q)
    ensures p == q
  {
  }
}

/** `IntegerPredicate`. */
module IntegerPredicates {
  import opened Wrappers

  datatype IntegerPredicate = eq | ne | ugt | uge | ult | ule | slt | sge | sgt | sle

  /** `LLVMIntPredicate`. */
  datatype LlvmIntPredicate =
    | LLVMIntEQ | LLVMIntNE | LLVMIntUGT | LLVMIntUGE | LLVMIntULT
    | LLVMIntULE | LLVMIntSGT | LLVMIntSGE | LLVMIntSLT | LLVMIntSLE

  /** `description`, the raw value: the case name. */
  function Description(p: IntegerPredicate): string {
    match p
    case eq => "eq" case ne => "ne"
    case ugt => "ugt" case uge => "uge" case ult => "ult" case ule => "ule"
    case slt => "slt" case sge => "sge" case sgt => "sgt" case sle => "sle"
  }

  /** `init?(_:)`, through `init(rawValue:)`: the predicate whose text is
      `s`, and `nil` for any other string. */
  function Parse(s: string): (r: Option<IntegerPredicate>)
    ensures r.Some? ==> Description(r.value) == s
    ensures r.None? <==> forall p :: Description(p) != s
  {
    if s == "eq" then Some(eq)
    else if s == "ne" then Some(ne)
    else if s == "ugt" then Some(ugt)
    else if s == "uge" then Some(uge)
    else if s == "ult" then Some(ult)
    else if s == "ule" then Some(ule)
    else if s == "slt" then Some(slt)
    else if s == "sge" then Some(sge)
    else if s == "sgt" then Some(sgt)
    else if s == "sle" then Some(sle)
    else
      assert forall p :: Description(p) != s by {
        forall p ensures Description(p) != s {
          DescriptionIsListed(p);
        }
      }
      None
  }

  /** The texts are exactly eq, ne, ugt, uge, ult, ule, slt, sge, sgt and
      sle. */
  lemma DescriptionIsListed(p: IntegerPredicate)
    ensures Description(p) in ["eq", "ne", "ugt", "uge", "ult", "ule", "slt", "sge", "sgt", "sle"]
  {
  }

  /** Parsing a predicate's text gives the predicate back. */
  lemma ParseDescription(p: IntegerPredicate)
    ensures Parse(Description(p)) == Some(p)
  {
  }

  /** `llvm`: each predicate names its same-named constant, e.g. `slt` is
      `LLVMIntSLT`. */
  function ToLlvm(p: IntegerPredicate): LlvmIntPredicate {
    match p
    case eq => LLVMIntEQ case ne => LLVMIntNE
    case ugt => LLVMIntUGT case uge => LLVMIntUGE
    case ult => LLVMIntULT case ule => LLVMIntULE
    case sgt => LLVMIntSGT case sge => LLVMIntSGE
    case slt => LLVMIntSLT case sle => LLVMIntSLE
  }

  /** Distinct predicates have distinct constants. */
  lemma ToLlvmInjective(p: IntegerPredicate, q: IntegerPredicate)
    requires ToLlvm(p) == ToLlvm(q)
    ensures p == q
  {
  }
}
