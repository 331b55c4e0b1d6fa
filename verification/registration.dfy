/** The per-class registration ledger of virtual method overrides.

    A registration context collects, before an extension class is exposed to
    the engine, the names of the virtual methods it binds and the override
    records for the built-in virtual methods it overrides.  The set of claimed
    names is shared with `BindVirtualMethod` (whose body is not part of this
    model): a context may therefore start with names already claimed that have
    no override record. */
module Registration {

  /** Describes the callback bound as an override; only its name matters to
      the ledger, the rest of the metadata is kept opaque. */
  datatype VirtualMethodOverrideInfo = VirtualMethodOverrideInfo(name: string, callback: nat)

  /** The ledger: the owning class, every name claimed so far (by either bind
      method) and the override records keyed by name. */
  datatype ClassDBRegistrationContext = ClassDBRegistrationContext(
    className: string,
    registeredMethods: set<string>,
    registeredVirtualMethodOverrides: map<string, VirtualMethodOverrideInfo>)

  /** The naming-conflict error raised on a duplicate registration. */
  datatype ArgumentException = ArgumentException(message: string)

  /** What a call leaves behind: the context after the call, and whether it
      returned normally or threw. */
  datatype Outcome =
    | Returned(context: ClassDBRegistrationContext)
    | Threw(exception: ArgumentException, context: ClassDBRegistrationContext)

  /** The ledger's invariant: every override record is keyed by its own name,
      and that name has been claimed. */
  ghost predicate Valid(ctx: ClassDBRegistrationContext) {
    && ctx.registeredVirtualMethodOverrides.Keys <= ctx.registeredMethods
    && forall n :: n in ctx.registeredVirtualMethodOverrides ==> ctx.registeredVirtualMethodOverrides[n].name == n
  }

  /** `t` occurs in `s` starting at index `i`. */
  predicate OccursAt(t: string, s: string, i: int) {
    0 <= i && i + |t| <= |s| && s[i..i + |t|] == t
  }

  /** `t` is a substring of `s`. */
  ghost predicate Mentions(s: string, t: string) {
    exists i :: OccursAt(t, s, i)
  }

  const MessageHead := "Virtual method override '"
  const MessageMiddle := "' already registered in class '"
  const MessageTail := "'."

  /** The text of the naming-conflict error: the method name and the class
      name, each quoted, in a fixed sentence. */
  function ConflictMessage(methodName: string, className: string): (r: string)
    ensures var i := |MessageHead| + |methodName|;
            var j := i + |MessageMiddle| + |className|;
            && |r| == j + |MessageTail|
            && r[..|MessageHead|] == MessageHead
            && r[|MessageHead|..i] == methodName
            && r[i..i + |MessageMiddle|] == MessageMiddle
            && r[i + |MessageMiddle|..j] == className
            && r[j..] == MessageTail
  {
    MessageHead + methodName + MessageMiddle + className + MessageTail
  }

  /** The error text names both the offending method and the owning class. */
  lemma ConflictMessageNamesMethodAndClass(methodName: string, className: string)
    ensures Mentions(ConflictMessage(methodName, className), methodName)
    ensures Mentions(ConflictMessage(methodName, className), className)
  {
    var msg := ConflictMessage(methodName, className);
    var i := |MessageHead|;
    var j := |MessageHead| + |methodName| + |MessageMiddle|;
    assert msg[i..i + |methodName|] == methodName;
    assert OccursAt(methodName, msg, i);
    assert msg[j..j + |className|] == className;
    assert OccursAt(className, msg, j);
  }

  /** A context at the start of override registration: no override records,
      and whatever names `BindVirtualMethod` has claimed. */
  function NewContext(className: string, claimed: set<string>): (r: ClassDBRegistrationContext)
    ensures Valid(r)
    ensures r.className == className
    ensures r.registeredMethods == claimed
    ensures r.registeredVirtualMethodOverrides == map[]
  {
    ClassDBRegistrationContext(className, claimed, map[])
  }

  /** Registers `info` as the override of a built-in virtual method.  Adding
      the name to the claimed set fails when it is already claimed, and then
      the call throws and changes nothing; otherwise the name is claimed and
      the record is stored under it. */
  function BindVirtualMethodOverride(ctx: ClassDBRegistrationContext, info: VirtualMethodOverrideInfo): (r: Outcome)
    ensures r.Threw? <==> info.name in ctx.registeredMethods
    ensures r.Threw? ==> r.context == ctx
    ensures r.Threw? ==> r.exception.message == ConflictMessage(info.name, ctx.className)
    ensures r.context.className == ctx.className
    ensures r.Returned? ==> r.context.registeredMethods == ctx.registeredMethods + {info.name}
    ensures r.Returned? ==> r.context.registeredVirtualMethodOverrides.Keys
                            == ctx.registeredVirtualMethodOverrides.Keys + {info.name}
    ensures r.Returned? ==> r.context.registeredVirtualMethodOverrides[info.name] == info
    ensures forall n :: n in ctx.registeredVirtualMethodOverrides && n != info.name ==>
              r.context.registeredVirtualMethodOverrides[n] == ctx.registeredVirtualMethodOverrides[n]
    ensures Valid(ctx) ==> Valid(r.context)
  {
    if info.name in ctx.registeredMethods then
      Threw(ArgumentException(ConflictMessage(info.name, ctx.className)), ctx)
    else
      Returned(ctx.(registeredMethods := ctx.registeredMethods + {info.name},
                    registeredVirtualMethodOverrides := ctx.registeredVirtualMethodOverrides[info.name := info]))
  }

  /** The names carried by a sequence of override records. */
  function Names(infos: seq<VirtualMethodOverrideInfo>): set<string> {
    set i | 0 <= i < |infos| :: infos[i].name
  }

  /** The context after a series of calls, in order, each conflicting call
      being caught by the caller (a failed call leaves the context usable). */
  function BindAll(ctx: ClassDBRegistrationContext, infos: seq<VirtualMethodOverrideInfo>): (r: ClassDBRegistrationContext)
    requires Valid(ctx)
    ensures r.className == ctx.className
    ensures r.registeredMethods == ctx.registeredMethods + Names(infos)
    ensures forall n :: n in ctx.registeredVirtualMethodOverrides ==>
              n in r.registeredVirtualMethodOverrides
              && r.registeredVirtualMethodOverrides[n] == ctx.registeredVirtualMethodOverrides[n]
    ensures Valid(r)
    decreases |infos|
  {
    if |infos| == 0 then
      assert Names(infos) == {};
      ctx
    else
      assert Names(infos) == {infos[0].name} + Names(infos[1..]);
      BindAll(BindVirtualMethodOverride(ctx, infos[0]).context, infos[1..])
  }

  /** Binding the same name twice: the first call returns, the second throws a
      conflict naming the method and the class, and the first record is still
      the one found under that name. */
  lemma BindTwice(ctx: ClassDBRegistrationContext, first: VirtualMethodOverrideInfo, second: VirtualMethodOverrideInfo)
    requires first.name == second.name
    requires first.name !in ctx.registeredMethods
    ensures BindVirtualMethodOverride(ctx, first).Returned?
    ensures var r2 := BindVirtualMethodOverride(BindVirtualMethodOverride(ctx, first).context, second);
            && r2.Threw?
            && Mentions(r2.exception.message, first.name)
            && Mentions(r2.exception.message, ctx.className)
            && r2.context.registeredVirtualMethodOverrides[first.name] == first
  {
    ConflictMessageNamesMethodAndClass(first.name, ctx.className);
  }

  /** In any series of calls, the record bound under a name is the first one
      offered under that name, provided the name was not claimed beforehand:
      later duplicates never overwrite it. */
  lemma {:induction false} FirstBindingWins(ctx: ClassDBRegistrationContext, infos: seq<VirtualMethodOverrideInfo>, i: nat)
    requires Valid(ctx)
    requires i < |infos|
    requires infos[i].name !in ctx.registeredMethods
    requires forall j :: 0 <= j < i ==> infos[j].name != infos[i].name
    ensures infos[i].name in BindAll(ctx, infos).registeredVirtualMethodOverrides
    ensures BindAll(ctx, infos).registeredVirtualMethodOverrides[infos[i].name] == infos[i]
    decreases i
  {
    var next := BindVirtualMethodOverride(ctx, infos[0]).context;
    assert BindAll(ctx, infos) == BindAll(next, infos[1..]);
    if i > 0 {
      assert infos[1..][i - 1] == infos[i];
      forall j | 0 <= j < i - 1
        ensures infos[1..][j].name != infos[1..][i - 1].name
      {
        assert infos[1..][j] == infos[j + 1];
      }
      FirstBindingWins(next, infos[1..], i - 1);
    }
  }

  /** A name claimed before a series of calls, by either bind method, never
      acquires a new override record. */
  lemma {:induction false} ClaimedNameKeepsItsRecord(ctx: ClassDBRegistrationContext, infos: seq<VirtualMethodOverrideInfo>, n: string)
    requires Valid(ctx)
    requires n in ctx.registeredMethods
    ensures n in BindAll(ctx, infos).registeredVirtualMethodOverrides <==> n in ctx.registeredVirtualMethodOverrides
    decreases |infos|
  {
    if |infos| > 0 {
      var next := BindVirtualMethodOverride(ctx, infos[0]).context;
      assert n in next.registeredVirtualMethodOverrides <==> n in ctx.registeredVirtualMethodOverrides;
      ClaimedNameKeepsItsRecord(next, infos[1..], n);
    }
  }
}
