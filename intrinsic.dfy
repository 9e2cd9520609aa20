/** `Intrinsic.Name` (the same code in both the `LLVM` and the `SwiftyLLVM`
    trees): the name of an intrinsic, built by dynamic member access from the
    root `Intrinsic.llvm`, each access appending a dot and the member. */
module Intrinsics {

  /** `Intrinsic.Name`.  Its initialiser is private to its file, so outside
      that file every name is the root or a member access on another
      name. */
  datatype Name = Name(value: string)

  /** `Intrinsic.llvm`, the prefix of all intrinsics. */
  const Llvm: Name := Name("llvm")

  /** `subscript(dynamicMember:)`: the parent's text, then a dot, then `n`.
      The parent is a proper prefix of the result. */
  function Member(parent: Name, n: string): (r: Name)
    ensures |r.value| == |parent.value| + |n| + 1
    ensures parent.value < r.value
    ensures r.value[|parent.value|] == '.'
    ensures r.value[|parent.value| + 1..] == n
  {
    Name(parent.value + "." + n)
  }

  /** A chain of member accesses starting from the root, as client code
      outside the file can write it (`Intrinsic.llvm.coro.id`, ...). */
  datatype Access = Root | Dot(parent: Access, member: string)

  /** The name an access chain denotes. */
  function Resolve(a: Access): (r: Name)
    ensures a.Root? ==> r == Llvm
    ensures Llvm.value <= r.value
    ensures a.Dot? ==> Resolve(a.parent).value < r.value
  {
    match a
    case Root => Llvm
    case Dot(parent, n) => Member(Resolve(parent), n)
  }

  /** The number of member accesses in a chain. */
  function Depth(a: Access): nat {
    match a
    case Root => 0
    case Dot(parent, _) => Depth(parent) + 1
  }

  /** Each access lengthens the name by its member and one dot, so a chain's
      name is at least four characters plus one per access. */
  lemma {:induction false} ResolveLength(a: Access)
    ensures |Resolve(a).value| >= 4 + Depth(a)
  {
    match a
    case Root =>
    case Dot(parent, n) =>
      ResolveLength(parent);
  }

  /** `Intrinsic.llvm.coro`, `Intrinsic.llvm.coro.id` and
      `Intrinsic.llvm.coro.id.retcon`, the prefixes of the chain below, one
      access at a time. */
  lemma CoroName()
    ensures Resolve(Dot(Root, "coro")) == Name("llvm.coro")
  {
    assert Resolve(Dot(Root, "coro")) == Member(Llvm, "coro");
  }

  lemma CoroIdName()
    ensures Resolve(Dot(Dot(Root, "coro"), "id")) == Name("llvm.coro.id")
  {
    CoroName();
    assert Resolve(Dot(Dot(Root, "coro"), "id")) == Member(Name("llvm.coro"), "id");
  }

  lemma CoroIdRetconName()
    ensures Resolve(Dot(Dot(Dot(Root, "coro"), "id"), "retcon")) == Name("llvm.coro.id.retcon")
  {
    CoroIdName();
    assert Resolve(Dot(Dot(Dot(Root, "coro"), "id"), "retcon")) == Member(Name("llvm.coro.id"), "retcon");
  }

  /** `Intrinsic.llvm.coro.id.retcon.once`. */
  lemma CoroIdRetconOnce()
    ensures Resolve(Dot(Dot(Dot(Dot(Root, "coro"), "id"), "retcon"), "once")).value
      == "llvm.coro.id.retcon.once"
  {
    CoroIdRetconName();
    assert Resolve(Dot(Dot(Dot(Dot(Root, "coro"), "id"), "retcon"), "once"))
      == Member(Name("llvm.coro.id.retcon"), "once");
  }
}
