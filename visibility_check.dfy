/**
 * The standard visibility check of the workplace context menu.
 *
 * A check is configured with a set of flags; each flag switches on one test
 * that may hide a menu entry (Invisible) or show it greyed out with an
 * explanation (Inactive).  The tests always run in one fixed order, whatever
 * the order of the flags given to the constructor.
 *
 * Everything the original asks of the role manager, the request context,
 * the resource utility and the permission system arrives here as the plain
 * values of a `ResourceContext`.
 */
module VisibilityCheck {

  /** The nine flags a standard visibility check can be configured with. */
  datatype VisibilityCheckFlag =
    | RoleEditor        // user must have the editor role
    | RoleWpUser        // user must have the workplace-user role
    | NotOnline         // current project must not be the online project
    | NotUnchangedFile  // resource must not be an unchanged file
    | NotNew            // flags new resources (has no effect on the result)
    | InProject         // resource must be inside the project or locked for publishing
    | WritePermission   // resource must be editable and writable
    | NotDeleted        // resource must not be deleted
    | Deleted           // resource must be deleted

  /** The state of a resource; any state other than unchanged, new or deleted acts as `StateChanged`. */
  datatype ResourceState = StateUnchanged | StateChanged | StateNew | StateDeleted

  /** The answer of the write-permission query, which may fail with an exception. */
  datatype PermissionAnswer = Granted | Denied | Failed

  /** What the check needs to know about the user, the project and the resource. */
  datatype ResourceContext = ResourceContext(
    hasEditorRole: bool,
    hasWorkplaceUserRole: bool,
    inOnlineProject: bool,
    isFile: bool,
    state: ResourceState,
    insideProject: bool,
    lockedForPublishing: bool,
    editable: bool,
    writePermission: PermissionAnswer
  )

  /** The message keys that explain why an entry is inactive. */
  datatype MessageKey = PermWriteKey | DeletedKey | NewUnchangedKey

  /** The name of a message key in the workplace message bundle. */
  function KeyName(k: MessageKey): string
  {
    match k
    case PermWriteKey => "GUI_CONTEXTMENU_TITLE_INACTIVE_PERM_WRITE_0"
    case DeletedKey => "GUI_CONTEXTMENU_TITLE_INACTIVE_DELETED_0"
    case NewUnchangedKey => "GUI_CONTEXTMENU_TITLE_INACTIVE_NEW_UNCHANGED_0"
  }

  /** The visibility mode of a context menu entry; an inactive entry carries a message key. */
  datatype Mode = Active | Inactive(key: MessageKey) | Invisible

  /** The flags of the preset for edit-like operations. */
  const DefaultArgs: seq<VisibilityCheckFlag> := [RoleEditor, NotOnline, NotDeleted, WritePermission]

  /** The flags of the preset for the undo operation. */
  const UndoArgs: seq<VisibilityCheckFlag> :=
    [NotUnchangedFile, NotNew, RoleEditor, NotOnline, NotDeleted, WritePermission]

  /** The flags of the preset for the undelete operation. */
  const UndeleteArgs: seq<VisibilityCheckFlag> := [RoleEditor, NotOnline, Deleted, WritePermission]

  /**
   * The flag set the constructor builds from its arguments: each argument is
   * added, left to right, to an initially empty set.
   */
  function Configured(args: seq<VisibilityCheckFlag>): set<VisibilityCheckFlag>
  {
    if args == [] then {} else Configured(args[..|args| - 1]) + {args[|args| - 1]}
  }

  /**
   * The chain of guarded checks of `getSingleVisibility`: the first check
   * that is configured and fails decides the mode; if none fails, the entry
   * is active.
   */
  function Decide(flags: set<VisibilityCheckFlag>, ctx: ResourceContext): (m: Mode)
    ensures m.Inactive? ==> m.key != NewUnchangedKey
    ensures m.Inactive? && m.key == PermWriteKey ==>
      WritePermission in flags && (!ctx.editable || ctx.writePermission == Denied)
    ensures m.Inactive? && m.key == DeletedKey ==> NotDeleted in flags && ctx.state == StateDeleted
    ensures m == Invisible ==>
      exists f :: f in flags && f in {RoleEditor, RoleWpUser, NotOnline, NotUnchangedFile, InProject, WritePermission, Deleted}
  {
    if RoleEditor in flags && !ctx.hasEditorRole then
      Invisible
    else if RoleWpUser in flags && !ctx.hasWorkplaceUserRole then
      Invisible
    else if NotOnline in flags && ctx.inOnlineProject then
      Invisible
    else if NotUnchangedFile in flags && ctx.isFile && ctx.state == StateUnchanged then
      Invisible
    // the NotNew test only touches a shared message key and never returns
    else if InProject in flags && !ctx.insideProject && !ctx.lockedForPublishing then
      Invisible
    else if WritePermission in flags && !ctx.editable then
      // the permission query is not made when the resource is not editable
      Inactive(PermWriteKey)
    else if WritePermission in flags && ctx.writePermission == Failed then
      Invisible
    else if WritePermission in flags && ctx.writePermission == Denied then
      Inactive(PermWriteKey)
    else if NotDeleted in flags && ctx.state == StateDeleted then
      Inactive(DeletedKey)
    else if Deleted in flags && ctx.state != StateDeleted then
      Invisible
    else
      Active
  }

  /** A standard visibility check, holding the flags it was configured with. */
  class StandardVisibilityCheck {
    var flags: set<VisibilityCheckFlag>

    /** Adds each of the given flags to the flag set; order and repetition do not matter. */
    constructor (args: seq<VisibilityCheckFlag>)
      ensures flags == Configured(args)
      ensures forall f :: Flag(f) <==> f in args
    {
      flags := {};
      new;
      var i := 0;
      while i < |args|
        invariant 0 <= i <= |args|
        invariant flags == Configured(args[..i])
        invariant forall f :: f in flags <==> f in args[..i]
      {
        assert args[..i + 1][..i] == args[..i];
        flags := flags + {args[i]};
        i := i + 1;
      }
      assert args[..i] == args;
    }

    /** Whether this check was configured with `f`. */
    function Flag(f: VisibilityCheckFlag): bool
      reads this
    {
      f in flags
    }

    /** The visibility mode of the menu entry for one resource. */
    function SingleVisibility(ctx: ResourceContext): Mode
      reads this
    {
      Decide(flags, ctx)
    }
  }
}
