/** Callable values on both sides of the extension boundary, and the parts of
    the engine's extension interface the marshaller consults.  The engine's
    own behaviour is not modelled: each native routine the marshaller calls is
    a function-valued field of `Interface`, about which nothing is assumed
    beyond what a lemma states in its `requires`. */
module Callables {

  /** A machine address or `void*`; 0 is the null pointer. */
  type Address = nat

  const Null: Address := 0

  type Byte = bv8

  /** NativeGodotCallable: the engine's fixed-size binary layout of a callable,
      kept opaque. */
  datatype NativeCallable = NativeCallable(layout: seq<Byte>)

  /** A managed closure, an instance of a CustomCallable subclass, identified
      by its object identity. */
  datatype CustomCallable = CustomCallable(identity: nat)

  /** The managed Callable: either a native callable held by value, or a
      managed closure exposed to the engine through a handle. */
  datatype Callable = Native(value: NativeCallable) | Managed(target: CustomCallable)

  /** NativeGodotVariant: the engine's tagged container; only the callable kind
      is distinguished. */
  datatype NativeVariant = CallableVariant(callable: NativeCallable) | OtherVariant(kind: nat, payload: seq<Byte>)

  /** The GC-handle table: a live handle's token, as the engine sees it in a
      custom callable's user data, mapped to the closure it pins. */
  type HandleTable = map<Address, CustomCallable>

  /** The engine routines the marshaller relies on.
      - `libraryPtr`: this library's identity, passed to the engine.
      - `customGetUserdata(c, lib)`: `callable_custom_get_userdata`; the user
        data of `c` if it is a custom callable created by library `lib`, else null.
      - `customNativeValue(f)`: the native callable underlying a Callable that
        wraps the managed closure `f`.
      - `convertToCallable(v)`: what the engine yields when a variant that does
        not hold a callable is converted to one. */
  datatype Interface = Interface(
    libraryPtr: Address,
    customGetUserdata: (NativeCallable, Address) -> Address,
    customNativeValue: CustomCallable -> NativeCallable,
    convertToCallable: NativeVariant -> NativeCallable)

  /** The user data of `c` as seen through this library's own identity. */
  function OwnUserData(iface: Interface, c: NativeCallable): Address {
    iface.customGetUserdata(c, iface.libraryPtr)
  }

  /** `c` is a custom callable created by this library. */
  predicate IsOwnCustom(iface: Interface, c: NativeCallable) {
    OwnUserData(iface, c) != Null
  }

  /** `Callable.NativeValue`: the native callable a managed Callable stands for. */
  function NativeValue(iface: Interface, value: Callable): (r: NativeCallable)
    ensures value.Native? ==> r == value.value
  {
    match value
    case Native(c) => c
    case Managed(f) => iface.customNativeValue(f)
  }

  /** `NativeGodotVariant.CreateFromCallableTakingOwnership`: the variant
      becomes the owner of the callable's native bytes. */
  function CreateFromCallableTakingOwnership(c: NativeCallable): NativeVariant {
    CallableVariant(c)
  }

  /** `NativeGodotVariant.GetOrConvertToCallable`: the callable a variant holds,
      or the engine's conversion of any other kind. */
  function GetOrConvertToCallable(iface: Interface, v: NativeVariant): (r: NativeCallable)
    ensures v.CallableVariant? ==> CreateFromCallableTakingOwnership(r) == v
  {
    match v
    case CallableVariant(c) => c
    case OtherVariant(_, _) => iface.convertToCallable(v)
  }

  /** Every token this library may find in its own custom callables names a
      live handle: the condition under which reading a callable back is
      defined. */
  predicate Resolvable(iface: Interface, handles: HandleTable, c: NativeCallable) {
    IsOwnCustom(iface, c) ==> OwnUserData(iface, c) in handles
  }

  /** A managed Callable whose native form reads back to itself: a native
      callable not tagged by this library, or a closure whose native form
      carries, under this library's identity, a live handle to that closure. */
  predicate RoundTrips(iface: Interface, handles: HandleTable, value: Callable) {
    match value
    case Native(c) => !IsOwnCustom(iface, c)
    case Managed(f) =>
      var token := OwnUserData(iface, iface.customNativeValue(f));
      token != Null && token in handles && handles[token] == f
  }
}
