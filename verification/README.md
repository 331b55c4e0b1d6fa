# Callable marshalling and virtual-override registration, in Dafny

This project models two pieces of the managed bridge between .NET extension
code and the Godot engine's extension interface:

- **The virtual-method-override ledger** of `ClassDBRegistrationContext`
  (`registration.dfy`, module `Registration`). The context holds the set of
  method names already claimed and the map from name to
  `VirtualMethodOverrideInfo`. `BindVirtualMethodOverride` tries to claim the
  record's name. If the name is taken it throws `ArgumentException`, whose
  message names the method and the class, and it changes nothing. Otherwise it
  stores the record under the name. `BindVirtualMethod` shares the claimed-name
  set, but its body is not part of this model. A context may therefore start
  with claimed names that have no override record. The `Outcome` datatype
  returns the context after the call on both the normal path and the throwing
  path. `BindAll` models a series of calls in which the caller catches each
  conflict.
- **`CallableMarshaller`** (`callable_marshaller.dfy`). It converts a
  `Callable` to and from a native callable buffer and a native variant buffer.
  - The unmanaged heap is a map from address to cell (`native_memory.dfy`,
    module `NativeMemory`).
  - `Marshal.AllocHGlobal` is a bump allocator, `Marshal.FreeHGlobal` removes
    one block, and the variant destructor empties its block.
  - Every allocation, destruction and release is appended to an effect log.
    This makes the order of effects inside one call observable.
  - The heap invariant `Valid` says that null is never a block. It also says
    that every block the log allocated and did not release is present. Any
    other present block is a buffer the caller owns, for example on its
    stack. `WriteUnmanaged` may write into such a buffer, but only blocks
    handed out by `AllocHGlobal` may be freed.
  - The GC-handle table maps tokens to `CustomCallable`s (`callables.dfy`,
    module `Callables`).
  - `Interface` gathers the engine routines that the marshaller calls. Each
    one is an uninterpreted function-valued field:
    `callable_custom_get_userdata`, the native value of a Callable that wraps
    a managed closure, and the engine's conversion of a non-callable variant
    to a callable.
  - Read operations take the heap and return only a `Callable`, so they
    cannot change the heap. Allocating and freeing operations return the heap
    after the call.

Pointers and `void*` user data are modelled as `nat` addresses, with 0 as
null. The source's `Debug.Assert(value is not null)` checks, and the
dereferences of caller pointers, become `requires` clauses. The source checks
them only with `Debug.Assert`, so a violation is a bug in the caller, not a
recoverable error.
Unlike `FreeVariant`, `Free` does not assert that its pointer is non-null.
`Marshal.FreeHGlobal` ignores a null pointer, so the model keeps that case as
a no-op and does not forbid it.

## Model

| member | source | states |
|---|---|---|
| Registration.NewContext | src/Godot.Bindings/Bridge/ClassDB/ClassDBRegistrationContext.BindVirtualMethodOverride.cs:8 | A fresh context has no override records, and its claimed names are whatever `BindVirtualMethod` has claimed. It satisfies the ledger invariant. |
| Registration.ConflictMessage | src/Godot.Bindings/Bridge/ClassDB/ClassDBRegistrationContext.BindVirtualMethodOverride.cs:24 | The message is the fixed text `Virtual method override '`, then the method name, then `' already registered in class '`, then the class name, then `'.`. This is exactly how line 24 interpolates it. |
| Registration.BindVirtualMethodOverride | src/Godot.Bindings/Bridge/ClassDB/ClassDBRegistrationContext.BindVirtualMethodOverride.cs:20-28 | The call throws if and only if the name is already claimed by either bind method. When it throws, the context is unchanged and the message is the conflict text. When it returns, the claimed set gains exactly the name, the map gains exactly the key, and the record is stored under the name. Every other record is unchanged, and the ledger invariant (every record is keyed by its own name, which is claimed) is preserved. |
| Registration.ConflictMessageNamesMethodAndClass | src/Godot.Bindings/Bridge/ClassDB/ClassDBRegistrationContext.BindVirtualMethodOverride.cs:24 | The conflict message contains both the method name and the owning class name as substrings. |
| Registration.BindTwice | src/Godot.Bindings/Bridge/ClassDB/ClassDBRegistrationContext.BindVirtualMethodOverride.cs:17-27 | When a name is bound twice, the first call returns. The second call throws a conflict that names the method and the class. The first record is still the one found under the name. |
| Registration.BindAll | src/Godot.Bindings/Bridge/ClassDB/ClassDBRegistrationContext.BindVirtualMethodOverride.cs:8-27 | Over any series of calls, the claimed set becomes the old set plus every offered name. Records present before are never overwritten or removed, and the ledger invariant holds throughout. |
| Registration.FirstBindingWins | src/Godot.Bindings/Bridge/ClassDB/ClassDBRegistrationContext.BindVirtualMethodOverride.cs:22-27 | For a name that was not claimed before, the record stored after a series of calls is the first one offered under that name. Later duplicates never replace it. |
| Registration.ClaimedNameKeepsItsRecord | src/Godot.Bindings/Bridge/ClassDB/ClassDBRegistrationContext.BindVirtualMethodOverride.cs:22-25 | A name claimed beforehand, for example by `BindVirtualMethod`, gains an override record in a series of calls only if it already had one. |
| NativeMemory.AllocHGlobal | src/Godot.Bindings/NativeInterop/Marshallers/CallableMarshaller.cs:18 | The allocation returns a non-null block that was never handed out before. The block is uninitialized, no other block changes, and the heap invariant is preserved. |
| NativeMemory.FreeHGlobal | src/Godot.Bindings/NativeInterop/Marshallers/CallableMarshaller.cs:44 | Freeing null does nothing. Freeing a block handed out by the allocator and not yet released removes exactly that block, logs its release and preserves the heap invariant. The block is then no longer live, so it cannot be freed again. |
| NativeMemory.DestroyVariant | src/Godot.Bindings/NativeInterop/Marshallers/CallableMarshaller.cs:63 | The variant's destructor runs on the variant stored in the block. This is logged, and the block stays allocated but empty. |
| CallableMarshaller.WriteUnmanaged | src/Godot.Bindings/NativeInterop/Marshallers/CallableMarshaller.cs:11-14 | The destination must be a non-null buffer that is present, and it may be any caller-owned buffer, not only a block from `AllocHGlobal`. It holds the value's native form afterwards. Every other block is unchanged, nothing is allocated or released, and a well-formed heap stays well-formed. |
| CallableMarshaller.ConvertToUnmanaged | src/Godot.Bindings/NativeInterop/Marshallers/CallableMarshaller.cs:16-21 | The call returns a fresh non-null block that was never allocated before. The block holds the value's native form, every earlier block is unchanged, and the only effect is one allocation. |
| CallableMarshaller.FromNative | src/Godot.Bindings/NativeInterop/Marshallers/CallableMarshaller.cs:27-39 | The tag check: the result is a managed closure exactly when the user data under this library's identity is non-null. The closure is then the one its handle pins. Otherwise the result is a by-value copy of the native callable. |
| CallableMarshaller.ConvertFromUnmanaged | src/Godot.Bindings/NativeInterop/Marshallers/CallableMarshaller.cs:23-40 | Applies the tag check to the callable stored at a non-null pointer. The heap is only read. |
| CallableMarshaller.Free | src/Godot.Bindings/NativeInterop/Marshallers/CallableMarshaller.cs:42-45 | Freeing null does nothing. Otherwise the block must be one that the allocator handed out and that is still live. Exactly that block is removed, the others are unchanged, one release is logged, and the block is no longer live. The allocator state is untouched. |
| CallableMarshaller.ConvertToVariant | src/Godot.Bindings/NativeInterop/Marshallers/CallableMarshaller.cs:47-52 | The call returns a fresh non-null block holding a variant that owns the value's native form. Every earlier block is unchanged. |
| CallableMarshaller.ConvertFromVariant | src/Godot.Bindings/NativeInterop/Marshallers/CallableMarshaller.cs:54-58 | Applies the tag check to the callable that the variant at a non-null pointer holds or converts to. The variant is only read. |
| CallableMarshaller.FreeVariant | src/Godot.Bindings/NativeInterop/Marshallers/CallableMarshaller.cs:60-65 | For a non-null, live variant block, the variant's destruction is logged before the block's release. Exactly that block is removed, every other block is unchanged, and the allocator state is untouched. |
| Callables.NativeValue | src/Godot.Bindings/NativeInterop/Marshallers/CallableMarshaller.cs:13 | A native callable's native form is itself, since the Callable holds it by value. A managed closure's native form comes from the engine and is left uninterpreted. |
| CallableMarshaller.NativeValueReadsBack | src/Godot.Bindings/NativeInterop/Marshallers/CallableMarshaller.cs:13 | Whenever a Callable round-trips, the tag check applied to its native form gives back that Callable. |
| Callables.GetOrConvertToCallable | src/Godot.Bindings/NativeInterop/Marshallers/CallableMarshaller.cs:57 | For a variant that holds a callable, the result is the callable whose take-ownership construction yields that variant. So extraction undoes `CreateFromCallableTakingOwnership`. |
| CallableMarshaller.CallerBufferRoundTrip | src/Godot.Bindings/NativeInterop/Marshallers/CallableMarshaller.cs:11-21 | Writing into a caller-owned buffer outside the allocator keeps a well-formed heap well-formed, and reading the buffer back gives the value. A later `ConvertToUnmanaged` never returns that buffer, and freeing the new block leaves the buffer's contents intact. |
| CallableMarshaller.FromUnmanagedReadsOnlyItsBlock | src/Godot.Bindings/NativeInterop/Marshallers/CallableMarshaller.cs:23-40 | Reading a callable back depends only on the block it is read from. So freeing or changing any other block does not affect the result. |
| CallableMarshaller.UntaggedIgnoresHandles | src/Godot.Bindings/NativeInterop/Marshallers/CallableMarshaller.cs:27-39 | A callable with no user data under this library's identity reads back as a copy of itself, for any two handle tables alike. Nothing is assumed about other library identities, so a foreign tag is never resolved through this library's handles. |
| CallableMarshaller.FromVariantIsFromUnmanaged | src/Godot.Bindings/NativeInterop/Marshallers/CallableMarshaller.cs:54-58 | Reading from a variant equals `ConvertFromUnmanaged` applied to a buffer that holds what the variant holds or converts to. |
| CallableMarshaller.UnmanagedRoundTrip | src/Godot.Bindings/NativeInterop/Marshallers/CallableMarshaller.cs:16-45 | A native callable without this library's tag, or a closure whose native form carries a live handle to itself, comes back unchanged from `ConvertFromUnmanaged(ConvertToUnmanaged(c))`. Freeing the buffer afterwards leaves every other block as before. |
| CallableMarshaller.VariantRoundTrip | src/Godot.Bindings/NativeInterop/Marshallers/CallableMarshaller.cs:47-65 | The same round trip through a variant buffer, followed by `FreeVariant`, gives the value back and leaves every other block as before. |
| CallableMarshaller.TaggedNativeReadsBackManaged | src/Godot.Bindings/NativeInterop/Marshallers/CallableMarshaller.cs:27-36 | A native callable that carries this library's tag reads back as the closure its handle pins, not as itself. So the round trips need their untagged condition. |

## Left out

- `GodotClassAttribute` is plain metadata with no behaviour, so it is not modelled.
- `BindVirtualMethod` is in another part of the partial class, which is not part of this model. The model only allows its claimed names to be present in a context.
- The contents of `VirtualMethodOverrideInfo` other than the name are not modelled. The record is kept as an opaque callback number.
- `StringName` is modelled as `string`, and the message interpolation as string concatenation.
- Address reuse by `Marshal.AllocHGlobal` is not modelled. The model's allocator never reuses an address. This is one behaviour a real allocator may show, and it makes "fresh" mean "never handed out before".
- The allocation size (`sizeof(NativeGodotCallable)`, `sizeof(NativeGodotVariant)`), byte layout and out-of-memory failure are not modelled. A block holds one whole value.
- `GCHandle` creation and release, and the handle registry's thread safety, are not modelled. The handle table is an input that reads never change, and `GCHandle.FromIntPtr` is a lookup in it.
- The internals of the engine routines are uninterpreted fields of `Interface`. These routines are `callable_custom_get_userdata`, the native value of a managed-closure Callable, and the conversion of a non-callable variant. Properties that need the custom user-data protocol state it as a `requires` (`RoundTrips`).
- Reference counting or ownership of the native callable bytes inside a variant is not modelled. `Callable.CreateTakingOwnership` is a by-value copy or a wrapper of the closure. Destroying a variant is recorded as an effect, and the release of what it owned is not modelled.
- The source asserts `gcHandle.Target as CustomCallable` is not null. The model's handle table holds only `CustomCallable`s, so a live token always resolves to one. The requirement that the token is live (`Resolvable`) is a precondition.
- `AggressiveInlining` and unsafe pointer casts have no counterpart in the model.
