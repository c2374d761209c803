/**
 * What the standard visibility check promises, stated against an independent
 * reading of it: an ordered list of checks, each of which on its own either
 * lets the entry through or decides its mode, and the first configured check
 * that does not let it through wins.
 */
module VisibilityProperties {
  import opened VisibilityCheck

  datatype Option<T> = None | Some(value: T)

  /** The checks in the fixed order in which they are performed. */
  const CheckOrder: seq<VisibilityCheckFlag> :=
    [RoleEditor, RoleWpUser, NotOnline, NotUnchangedFile, NotNew, InProject, WritePermission, NotDeleted, Deleted]

  /** The position of a flag's check in `CheckOrder`. */
  function Rank(f: VisibilityCheckFlag): (i: nat)
    ensures i < |CheckOrder| && CheckOrder[i] == f
  {
    match f
    case RoleEditor => 0
    case RoleWpUser => 1
    case NotOnline => 2
    case NotUnchangedFile => 3
    case NotNew => 4
    case InProject => 5
    case WritePermission => 6
    case NotDeleted => 7
    case Deleted => 8
  }

  /**
   * The mode one check decides on its own when it is reached, or `None` when
   * it lets the entry through to the next check.
   */
  function CheckOutcome(f: VisibilityCheckFlag, ctx: ResourceContext): (o: Option<Mode>)
    ensures o != Some(Active)
    ensures f == NotNew ==> o == None
  {
    match f
    case RoleEditor => if ctx.hasEditorRole then None else Some(Invisible)
    case RoleWpUser => if ctx.hasWorkplaceUserRole then None else Some(Invisible)
    case NotOnline => if ctx.inOnlineProject then Some(Invisible) else None
    case NotUnchangedFile => if ctx.isFile && ctx.state == StateUnchanged then Some(Invisible) else None
    case NotNew => None
    case InProject => if ctx.insideProject || ctx.lockedForPublishing then None else Some(Invisible)
    case WritePermission =>
      if !ctx.editable then Some(Inactive(PermWriteKey))
      else (match ctx.writePermission
            case Granted => None
            case Denied => Some(Inactive(PermWriteKey))
            case Failed => Some(Invisible))
    case NotDeleted => if ctx.state == StateDeleted then Some(Inactive(DeletedKey)) else None
    case Deleted => if ctx.state == StateDeleted then None else Some(Invisible)
  }

  /** Whether the check for `f` stops the entry when it is reached. */
  predicate Fails(f: VisibilityCheckFlag, ctx: ResourceContext)
  {
    CheckOutcome(f, ctx).Some?
  }

  /** The outcome of the first configured check in `order` that fails; `Active` when none does. */
  function FirstFailing(order: seq<VisibilityCheckFlag>, flags: set<VisibilityCheckFlag>, ctx: ResourceContext): Mode
  {
    if order == [] then Active
    else if order[0] in flags && Fails(order[0], ctx) then CheckOutcome(order[0], ctx).value
    else FirstFailing(order[1..], flags, ctx)
  }

  /** Every configured check ranked before position `n` lets the entry through. */
  predicate PassesBefore(n: nat, flags: set<VisibilityCheckFlag>, ctx: ResourceContext)
  {
    forall j :: 0 <= j < n && j < |CheckOrder| && CheckOrder[j] in flags ==> !Fails(CheckOrder[j], ctx)
  }

  // ---------------------------------------------------------------------------
  // The flag set

  /** A flag is configured exactly when it is among the constructor's arguments. */
  lemma {:induction false} ConfiguredMembership(args: seq<VisibilityCheckFlag>, f: VisibilityCheckFlag)
    ensures f in Configured(args) <==> f in args
  {
    if args != [] {
      var init := args[..|args| - 1];
      ConfiguredMembership(init, f);
      assert args == init + [args[|args| - 1]];
    }
  }

  /** Neither the order nor repetitions of the constructor's arguments change the flag set. */
  lemma ConfiguredIgnoresOrderAndRepetition(a: seq<VisibilityCheckFlag>, b: seq<VisibilityCheckFlag>)
    requires forall f :: f in a <==> f in b
    ensures Configured(a) == Configured(b)
  {
    forall f
      ensures f in Configured(a) <==> f in Configured(b)
    {
      ConfiguredMembership(a, f);
      ConfiguredMembership(b, f);
    }
  }

  /** The flag set is the set of the constructor's arguments. */
  lemma ConfiguredIsArgumentSet(args: seq<VisibilityCheckFlag>)
    ensures Configured(args) == set f | f in args
  {
    forall f
      ensures f in Configured(args) <==> f in args
    {
      ConfiguredMembership(args, f);
    }
  }

  /** The three presets: undo adds two flags to the default, undelete swaps `NotDeleted` for `Deleted`. */
  lemma PresetFlagSets()
    ensures Configured(DefaultArgs) == {RoleEditor, NotOnline, NotDeleted, WritePermission}
    ensures Configured(UndoArgs) == Configured(DefaultArgs) + {NotUnchangedFile, NotNew}
    ensures Configured(UndeleteArgs) == Configured(DefaultArgs) - {NotDeleted} + {Deleted}
  {
    ConfiguredIsArgumentSet(DefaultArgs);
    ConfiguredIsArgumentSet(UndoArgs);
    ConfiguredIsArgumentSet(UndeleteArgs);
  }

  // ---------------------------------------------------------------------------
  // The chain of checks against the ordered list of checks

  /** What each check decides, in the terms the chain of checks uses. */
  lemma CheckFacts(ctx: ResourceContext)
    ensures Fails(RoleEditor, ctx) <==> !ctx.hasEditorRole
    ensures Fails(RoleWpUser, ctx) <==> !ctx.hasWorkplaceUserRole
    ensures Fails(NotOnline, ctx) <==> ctx.inOnlineProject
    ensures Fails(NotUnchangedFile, ctx) <==> ctx.isFile && ctx.state == StateUnchanged
    ensures !Fails(NotNew, ctx)
    ensures Fails(InProject, ctx) <==> !ctx.insideProject && !ctx.lockedForPublishing
    ensures Fails(WritePermission, ctx) <==> !ctx.editable || ctx.writePermission != Granted
    ensures Fails(WritePermission, ctx) ==>
      CheckOutcome(WritePermission, ctx).value
      == (if ctx.editable && ctx.writePermission == Failed then Invisible else Inactive(PermWriteKey))
    ensures Fails(NotDeleted, ctx) <==> ctx.state == StateDeleted
    ensures Fails(Deleted, ctx) <==> ctx.state != StateDeleted
  {
  }

  /** The last four checks of `CheckOrder`, written as the tail of the chain in `Decide`. */
  lemma FirstFailingFromInProject(flags: set<VisibilityCheckFlag>, ctx: ResourceContext)
    ensures FirstFailing(CheckOrder[5..], flags, ctx) ==
      if InProject in flags && !ctx.insideProject && !ctx.lockedForPublishing then Invisible
      else if WritePermission in flags && !ctx.editable then Inactive(PermWriteKey)
      else if WritePermission in flags && ctx.writePermission == Failed then Invisible
      else if WritePermission in flags && ctx.writePermission == Denied then Inactive(PermWriteKey)
      else if NotDeleted in flags && ctx.state == StateDeleted then Inactive(DeletedKey)
      else if Deleted in flags && ctx.state != StateDeleted then Invisible
      else Active
  {
    var tail8 := if Deleted in flags && ctx.state != StateDeleted then Invisible else Active;
    assert FirstFailing(CheckOrder[8..], flags, ctx) == tail8 by {
      UnfoldAt(CheckOrder, 8, flags, ctx);
      assert CheckOrder[9..] == [];
      CheckFacts(ctx);
    }
    var tail7 := if NotDeleted in flags && ctx.state == StateDeleted then Inactive(DeletedKey) else tail8;
    assert FirstFailing(CheckOrder[7..], flags, ctx) == tail7 by {
      UnfoldAt(CheckOrder, 7, flags, ctx);
      CheckFacts(ctx);
    }
    var tail6 :=
      if WritePermission in flags && !ctx.editable then Inactive(PermWriteKey)
      else if WritePermission in flags && ctx.writePermission == Failed then Invisible
      else if WritePermission in flags && ctx.writePermission == Denied then Inactive(PermWriteKey)
      else tail7;
    assert FirstFailing(CheckOrder[6..], flags, ctx) == tail6 by {
      UnfoldAt(CheckOrder, 6, flags, ctx);
      CheckFacts(ctx);
    }
    UnfoldAt(CheckOrder, 5, flags, ctx);
    CheckFacts(ctx);
  }

  /** `Decide` is the first failing check of `CheckOrder`. */
  lemma DecideIsFirstFailing(flags: set<VisibilityCheckFlag>, ctx: ResourceContext)
    ensures Decide(flags, ctx) == FirstFailing(CheckOrder, flags, ctx)
  {
    // unfold the list one check at a time, from the last check to the first
    var tail5 := FirstFailing(CheckOrder[5..], flags, ctx);
    FirstFailingFromInProject(flags, ctx);
    assert FirstFailing(CheckOrder[4..], flags, ctx) == tail5 by {
      UnfoldAt(CheckOrder, 4, flags, ctx);
      CheckFacts(ctx);
    }
    var tail3 := if NotUnchangedFile in flags && ctx.isFile && ctx.state == StateUnchanged then Invisible else tail5;
    assert FirstFailing(CheckOrder[3..], flags, ctx) == tail3 by {
      UnfoldAt(CheckOrder, 3, flags, ctx);
      CheckFacts(ctx);
    }
    var tail2 := if NotOnline in flags && ctx.inOnlineProject then Invisible else tail3;
    assert FirstFailing(CheckOrder[2..], flags, ctx) == tail2 by {
      UnfoldAt(CheckOrder, 2, flags, ctx);
      CheckFacts(ctx);
    }
    var tail1 := if RoleWpUser in flags && !ctx.hasWorkplaceUserRole then Invisible else tail2;
    assert FirstFailing(CheckOrder[1..], flags, ctx) == tail1 by {
      UnfoldAt(CheckOrder, 1, flags, ctx);
      CheckFacts(ctx);
    }
    assert FirstFailing(CheckOrder, flags, ctx) == if RoleEditor in flags && !ctx.hasEditorRole then Invisible else tail1 by {
      UnfoldAt(CheckOrder, 0, flags, ctx);
      assert CheckOrder[0..] == CheckOrder;
      CheckFacts(ctx);
    }
  }

  /** Unfolds `FirstFailing` once, on the suffix of `order` that starts at `k`. */
  lemma UnfoldAt(order: seq<VisibilityCheckFlag>, k: nat, flags: set<VisibilityCheckFlag>, ctx: ResourceContext)
    requires k < |order|
    ensures FirstFailing(order[k..], flags, ctx)
      == if order[k] in flags && Fails(order[k], ctx) then CheckOutcome(order[k], ctx).value
         else FirstFailing(order[k + 1..], flags, ctx)
  {
    assert order[k..][1..] == order[k + 1..];
  }

  /** The first failing check of a list is `Active` exactly when no configured check in it fails. */
  lemma {:induction false} FirstFailingActive(order: seq<VisibilityCheckFlag>, flags: set<VisibilityCheckFlag>, ctx: ResourceContext)
    ensures FirstFailing(order, flags, ctx) == Active <==>
      forall j :: 0 <= j < |order| && order[j] in flags ==> !Fails(order[j], ctx)
  {
    if order != [] {
      FirstFailingActive(order[1..], flags, ctx);
      assert forall j :: 1 <= j < |order| ==> order[j] == order[1..][j - 1];
    }
  }

  /** A configured failing check decides the outcome when every configured check before it passes. */
  lemma {:induction false} FirstFailingPicksFirst(order: seq<VisibilityCheckFlag>, i: nat, flags: set<VisibilityCheckFlag>, ctx: ResourceContext)
    requires i < |order| && order[i] in flags && Fails(order[i], ctx)
    requires forall j :: 0 <= j < i && order[j] in flags ==> !Fails(order[j], ctx)
    ensures FirstFailing(order, flags, ctx) == CheckOutcome(order[i], ctx).value
  {
    if i > 0 {
      assert forall j :: 0 <= j < i - 1 ==> order[1..][j] == order[j + 1];
      FirstFailingPicksFirst(order[1..], i - 1, flags, ctx);
    }
  }

  /** When the first failing check is not `Active`, some configured check failed first and decided it. */
  lemma {:induction false} FirstFailingHasCause(order: seq<VisibilityCheckFlag>, flags: set<VisibilityCheckFlag>, ctx: ResourceContext)
    returns (i: nat)
    requires FirstFailing(order, flags, ctx) != Active
    ensures i < |order| && order[i] in flags && Fails(order[i], ctx)
    ensures forall j :: 0 <= j < i && order[j] in flags ==> !Fails(order[j], ctx)
    ensures FirstFailing(order, flags, ctx) == CheckOutcome(order[i], ctx).value
  {
    if order[0] in flags && Fails(order[0], ctx) {
      i := 0;
    } else {
      var k := FirstFailingHasCause(order[1..], flags, ctx);
      i := k + 1;
      assert forall j :: 1 <= j < i ==> order[j] == order[1..][j - 1];
    }
  }

  // ---------------------------------------------------------------------------
  // Properties of getSingleVisibility

  /** The entry is active exactly when no configured check fails. */
  lemma ActiveIffNoCheckFails(flags: set<VisibilityCheckFlag>, ctx: ResourceContext)
    ensures Decide(flags, ctx) == Active <==> forall f :: f in flags ==> !Fails(f, ctx)
  {
  }

  /** A configured failing check decides the outcome when every configured check ranked before it passes. */
  lemma FirstFailingCheckWins(f: VisibilityCheckFlag, flags: set<VisibilityCheckFlag>, ctx: ResourceContext)
    requires f in flags && Fails(f, ctx) && PassesBefore(Rank(f), flags, ctx)
    ensures Decide(flags, ctx) == CheckOutcome(f, ctx).value
  {
    DecideIsFirstFailing(flags, ctx);
    FirstFailingPicksFirst(CheckOrder, Rank(f), flags, ctx);
  }

  /** A result other than `Active` is the outcome of a configured check that fails while all before it pass. */
  lemma InactiveOrInvisibleHasCause(flags: set<VisibilityCheckFlag>, ctx: ResourceContext)
    requires Decide(flags, ctx) != Active
    ensures exists f :: (f in flags && Fails(f, ctx) && PassesBefore(Rank(f), flags, ctx)
                         && Decide(flags, ctx) == CheckOutcome(f, ctx).value)
  {
    DecideIsFirstFailing(flags, ctx);
    var i := FirstFailingHasCause(CheckOrder, flags, ctx);
    var f := CheckOrder[i];
    assert Rank(f) == i;
  }

  /** With no flag configured, every entry is active. */
  lemma EmptyFlagsActive(ctx: ResourceContext)
    ensures Decide({}, ctx) == Active
  {
  }

  /** A missing editor role hides the entry, whatever else is configured or true of the resource. */
  lemma RoleEditorDominates(flags: set<VisibilityCheckFlag>, ctx: ResourceContext)
    requires RoleEditor in flags && !ctx.hasEditorRole
    ensures Decide(flags, ctx) == Invisible
  {
  }

  /** The `NotNew` flag never changes the result. */
  lemma NotNewHasNoEffect(flags: set<VisibilityCheckFlag>, ctx: ResourceContext)
    ensures Decide(flags + {NotNew}, ctx) == Decide(flags - {NotNew}, ctx)
  {
  }

  /** The write-permission check, once reached: a failed query hides, a refusal deactivates, a grant passes on. */
  lemma WritePermissionWhenReached(flags: set<VisibilityCheckFlag>, ctx: ResourceContext)
    requires WritePermission in flags && PassesBefore(Rank(WritePermission), flags, ctx)
    ensures ctx.editable && ctx.writePermission == Failed ==> Decide(flags, ctx) == Invisible
    ensures !ctx.editable || ctx.writePermission == Denied ==> Decide(flags, ctx) == Inactive(PermWriteKey)
    ensures ctx.editable && ctx.writePermission == Granted ==>
      Decide(flags, ctx) == Decide(flags - {WritePermission}, ctx)
  {
    if Fails(WritePermission, ctx) {
      FirstFailingCheckWins(WritePermission, flags, ctx);
    }
  }

  /** A deleted resource that reaches the `NotDeleted` check is shown inactive. */
  lemma NotDeletedWhenReached(flags: set<VisibilityCheckFlag>, ctx: ResourceContext)
    requires NotDeleted in flags && ctx.state == StateDeleted
    requires PassesBefore(Rank(NotDeleted), flags, ctx)
    ensures Decide(flags, ctx) == Inactive(DeletedKey)
  {
    FirstFailingCheckWins(NotDeleted, flags, ctx);
  }

  /** A resource that is not deleted and reaches the `Deleted` check is hidden. */
  lemma DeletedWhenReached(flags: set<VisibilityCheckFlag>, ctx: ResourceContext)
    requires Deleted in flags && ctx.state != StateDeleted
    requires PassesBefore(Rank(Deleted), flags, ctx)
    ensures Decide(flags, ctx) == Invisible
  {
    FirstFailingCheckWins(Deleted, flags, ctx);
  }

  /** The default and the undelete preset are never both active for the same resource. */
  lemma DefaultAndUndeleteExclusive(ctx: ResourceContext)
    ensures !(Decide(Configured(DefaultArgs), ctx) == Active && Decide(Configured(UndeleteArgs), ctx) == Active)
  {
  }

  /** Whatever is active under a flag set stays active under any subset of it. */
  lemma ActiveIsDownwardClosed(small: set<VisibilityCheckFlag>, large: set<VisibilityCheckFlag>, ctx: ResourceContext)
    requires small <= large && Decide(large, ctx) == Active
    ensures Decide(small, ctx) == Active
  {
  }

  /** An entry active under the undo preset is active under the default preset. */
  lemma UndoActiveImpliesDefaultActive(ctx: ResourceContext)
    requires Decide(Configured(UndoArgs), ctx) == Active
    ensures Decide(Configured(DefaultArgs), ctx) == Active
  {
    PresetFlagSets();
    ActiveIsDownwardClosed(Configured(DefaultArgs), Configured(UndoArgs), ctx);
  }

  /**
   * Adding a flag can make the result less severe: a resource that `Deleted`
   * alone hides is only deactivated once `WritePermission`, checked earlier,
   * is configured too.
   */
  lemma AddingWritePermissionCanSoften(ctx: ResourceContext)
    requires ctx.state != StateDeleted && !ctx.editable
    ensures Decide({Deleted}, ctx) == Invisible
    ensures Decide({Deleted, WritePermission}, ctx) == Inactive(PermWriteKey)
  {
  }
}
