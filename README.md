# Standard visibility check of the OpenCms context menu

This project models `CmsStandardVisibilityCheck`, the class that decides how the
workplace context menu shows an entry for a resource. The entry can be shown
(`Active`), shown greyed out with an explanatory message key (`Inactive`), or
hidden (`Invisible`).

A check is built from a list of flags (`VisibilityCheckFlag`: `RoleEditor`,
`RoleWpUser`, `NotOnline`, `NotUnchangedFile`, `NotNew`, `InProject`,
`WritePermission`, `NotDeleted`, `Deleted`). The constructor adds them one by
one to a set. `getSingleVisibility` then runs a fixed chain of guarded checks.
The first configured check that fails decides the mode. If none fails, the
entry is active. The three presets `DEFAULT`, `UNDO` and `UNDELETE` are the
argument lists `DefaultArgs`, `UndoArgs` and `UndeleteArgs`.

Layout:

- `visibility_check.dfy`, module `VisibilityCheck`:
  - the data types;
  - the class `StandardVisibilityCheck`, whose constructor loops over its arguments as the source does, with `Flag` and `SingleVisibility`;
  - `Configured`, the flag set a list of arguments produces;
  - `Decide`, the chain of checks, written branch for branch as in the source.
- `visibility_properties.dfy`, module `VisibilityProperties`:
  - an independent reading of the rule: `CheckOrder` lists the checks in order, `CheckOutcome` gives what each check decides on its own, and `FirstFailing` picks the first configured check that fails;
  - the lemmas that connect this reading to `Decide`, and the properties the design promises.

Everything the source asks of collaborators arrives as one `ResourceContext` value:
- the role manager (editor and workplace-user roles);
- the request context (is the current project the online project);
- the resource (is it a file, and its state);
- the resource utility (inside the project, locked for publishing, editable);
- the permission system (write permission granted, denied, or the query threw a `CmsException`).

The resource state is one value (`StateUnchanged`, `StateChanged`, `StateNew`,
`StateDeleted`). The source reads `isUnchanged`, `isNew` and `isDeleted` from
the same state object, so at most one of them holds.

The write-permission test in the source is `!isEditable() || !hasPermissions(...)`.
Java evaluates `||` left to right and stops early, so the permission query is
only made for an editable resource. A resource that is not editable is
therefore `Inactive` with the write-permission key, even when the query would
have thrown. The exception maps to `Invisible` only for an editable resource.
The model follows the code in this respect.

## Model

| member | source | states |
|---|---|---|
| `VisibilityCheck.StandardVisibilityCheck.constructor` | src/org/opencms/ui/contextmenu/CmsStandardVisibilityCheck.java:91-114 | after the loop over the arguments, the flag set is `Configured(args)`, and `flag(f)` holds exactly when `f` is one of the arguments |
| `VisibilityCheck.Decide` | src/org/opencms/ui/contextmenu/CmsStandardVisibilityCheck.java:120-175 | an inactive result carries the write-permission or the deleted key, never the new/unchanged key; the write-permission key only comes from a configured `WritePermission` on a resource that is not editable or not writable; the deleted key only comes from a configured `NotDeleted` on a deleted resource; an invisible result needs at least one configured hiding flag |
| `VisibilityProperties.ConfiguredMembership` | src/org/opencms/ui/contextmenu/CmsStandardVisibilityCheck.java:98-114 | a flag is in the configured set exactly when it is among the constructor's arguments |
| `VisibilityProperties.ConfiguredIgnoresOrderAndRepetition` | src/org/opencms/ui/contextmenu/CmsStandardVisibilityCheck.java:91-102 | two argument lists with the same elements give the same flag set, whatever their order or repetitions |
| `VisibilityProperties.ConfiguredIsArgumentSet` | src/org/opencms/ui/contextmenu/CmsStandardVisibilityCheck.java:98-102 | the configured set is the set of the arguments |
| `VisibilityProperties.PresetFlagSets` | src/org/opencms/ui/contextmenu/CmsStandardVisibilityCheck.java:65-86 | `DEFAULT` is {roleeditor, notonline, notdeleted, writepermission}; `UNDO` is `DEFAULT` plus notunchangedfile and notnew; `UNDELETE` is `DEFAULT` with notdeleted replaced by deleted |
| `VisibilityProperties.CheckOutcome` | src/org/opencms/ui/contextmenu/CmsStandardVisibilityCheck.java:124-173 | no single check ever decides `Active`, and the notnew check never decides anything |
| `VisibilityProperties.DecideIsFirstFailing` | src/org/opencms/ui/contextmenu/CmsStandardVisibilityCheck.java:124-175 | the chain of checks equals the first failing configured check, in the fixed order roleeditor, rolewpuser, notonline, notunchangedfile, notnew, inproject, writepermission, notdeleted, deleted; `Active` when none fails |
| `VisibilityProperties.ActiveIffNoCheckFails` | src/org/opencms/ui/contextmenu/CmsStandardVisibilityCheck.java:124-175 | the entry is active if and only if no configured check fails |
| `VisibilityProperties.FirstFailingCheckWins` | src/org/opencms/ui/contextmenu/CmsStandardVisibilityCheck.java:124-173 | a configured check that fails, when every configured check before it passes, decides the result |
| `VisibilityProperties.InactiveOrInvisibleHasCause` | src/org/opencms/ui/contextmenu/CmsStandardVisibilityCheck.java:124-173 | every result other than `Active` is the outcome of a configured failing check that all earlier configured checks let through |
| `VisibilityProperties.EmptyFlagsActive` | src/org/opencms/ui/contextmenu/CmsStandardVisibilityCheck.java:120-175 | with no flags, every entry is active |
| `VisibilityProperties.RoleEditorDominates` | src/org/opencms/ui/contextmenu/CmsStandardVisibilityCheck.java:124-126 | a configured roleeditor flag and a user without the editor role give `Invisible`, whatever else holds |
| `VisibilityProperties.NotNewHasNoEffect` | src/org/opencms/ui/contextmenu/CmsStandardVisibilityCheck.java:140-143 | the result is the same with and without the notnew flag, for every input |
| `VisibilityProperties.WritePermissionWhenReached` | src/org/opencms/ui/contextmenu/CmsStandardVisibilityCheck.java:149-164 | once reached, the write-permission check: a failed query on an editable resource gives `Invisible`; a non-editable resource or a denied permission gives `Inactive` with the write-permission key; a granted permission gives the result the remaining checks give |
| `VisibilityProperties.NotDeletedWhenReached` | src/org/opencms/ui/contextmenu/CmsStandardVisibilityCheck.java:166-169 | a deleted resource that reaches a configured notdeleted check is `Inactive` with the deleted key |
| `VisibilityProperties.DeletedWhenReached` | src/org/opencms/ui/contextmenu/CmsStandardVisibilityCheck.java:171-173 | a resource that is not deleted and reaches a configured deleted check is `Invisible` |
| `VisibilityProperties.DefaultAndUndeleteExclusive` | src/org/opencms/ui/contextmenu/CmsStandardVisibilityCheck.java:66-86 | `DEFAULT` and `UNDELETE` never both give `Active` for the same input |
| `VisibilityProperties.ActiveIsDownwardClosed` | src/org/opencms/ui/contextmenu/CmsStandardVisibilityCheck.java:124-175 | if a flag set gives `Active`, every subset of it gives `Active` too |
| `VisibilityProperties.UndoActiveImpliesDefaultActive` | src/org/opencms/ui/contextmenu/CmsStandardVisibilityCheck.java:66-79 | an entry active under `UNDO` is active under `DEFAULT` |
| `VisibilityProperties.AddingWritePermissionCanSoften` | src/org/opencms/ui/contextmenu/CmsStandardVisibilityCheck.java:149-173 | the results are not monotone in the flag set: the deleted flag alone hides a non-deleted, non-editable resource, but adding writepermission, which is checked earlier, makes it only `Inactive` |

## Left out

- The role manager, `CmsObject.hasPermissions`, `CmsResourceUtil`, the request context and the project objects are not part of this model. Their answers are fields of `ResourceContext`.
- The notnew branch calls `addMessageKey` on the shared constant `VISIBILITY_INACTIVE` and discards the result. Whether that changes shared state depends on `CmsMenuItemVisibilityMode`, which is not part of this model. The model records only that the returned mode is unaffected.
- Only the permission query can throw here. A `CmsException` from `isEditable` or from the resource state is not modelled.
- `CmsResourceState` is not part of this model. Any state other than unchanged, new or deleted is `StateChanged`, which none of the checks distinguishes further.
- Message-key localisation and how the UI renders a mode are not modelled. `KeyName` only records the key names.
- The aggregation over several resources in the superclass `A_CmsSimpleVisibilityCheck` is not part of this model.
- The XML module-export descriptor is declarative data with no logic, and it is not modelled.
- The flag the source spells `writepermisssion` is called `WritePermission` here.
