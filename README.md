# Wiki tool handlers, modelled in Dafny

The wiki platform's tools (interface 4) are handlers that an agent calls against a shared
in-memory data store. The store maps each table name to a mapping from string ID to record. Every
handler follows the same order of work:
- it checks that the referenced records exist;
- it validates enumerated arguments;
- it checks the caller's authority, through a role or a direct page/space grant found by scanning
  the grant tables;
- it then creates, deletes or rewrites records in place, and returns a JSON reply.

This project models the 27 handlers of `envs/testing/tools/interface_4`, one Dafny module per
handler, named after the handler's class. It has three layers.

- **Data** (`model.dfy`). Every record kind the handlers touch is a datatype: users, spaces, pages,
  comments, labels, groups, group memberships, page/space grants, notifications, watchers,
  templates, links and attachments. The store is a `class Store`, with one `map<Id, Record>` field
  per table; `State()` packs it into the `Db` value. An error reply is an `Error` constructor, one
  per distinct message. Enumerated arguments are checked against the same string constants as the
  source.
- **Specification**. Each handler has a `Spec` function from the store and the arguments to the
  reply and the new store. Its checks come in exactly the source's order, so the first failing
  check decides the error. The filter-then-update handlers (`update_*`) are written as one
  selection and one change per row over the whole table (`Tables.UpdateWhere`), plus the list of
  rewritten rows (`Tables.CollectWhere`).
- **Implementation**. Each handler's `Invoke` is a method on the `Store`. It runs the checks and the
  same loops as the source:
  - key-order scans for the authority tests (`Authority.FindGrant`);
  - a loop with invariants over the table for the filtered updates (`UpdatePass`, `Visit`);
  - collect-then-delete for cascades (`Tables.DeleteWhere`).

  Its `ensures` ties the reply and the new store to `Spec`. The read-only handlers
  (`read_user_permissions`, `read_page_hierarchy`) leave the store unchanged and return the
  specified value.

The lemmas state what each handler promises:
- when it succeeds (as an if-and-only-if);
- that a rejected call changes nothing;
- which rows may change, and that only the named table changes;
- what the reply lists;
- ordering quirks of the checks (a role gate before enumeration checks, a duplicate test before
  the authority test);
- table invariants the creating and deleting handlers preserve: one principal per grant and no
  duplicate grants, no duplicate memberships, case-insensitively distinct group names and per-space
  label names, and reply parents that still exist;
- repeat behaviour (idempotence, refusal of a second identical insertion).

`read_page_hierarchy`'s recursive `build_hierarchy` is a recursive function whose fuel is the
number of pages plus one. It is mutually recursive with the key-order scan of the pages and a
stable insertion sort by title. It is proved to produce a well-formed tree: current pages of the
space, each under its own parent, every level sorted by title and complete, and no deeper than a
non-zero `max_depth`.

The label bulk update overwrites `created_at` with the fixed timestamp, as the source does. The
group membership tools do not maintain `member_count`, and neither does the model.

## Model

| member | source | states |
|---|---|---|
| `Authority.FindGrant` | envs/testing/tools/interface_4/grant_page_permission.py:57-62 | The scan over a grant table reports true exactly when the user holds, in their own name, a grant of one of the wanted types on the target. |
| `Authority.CheckManagesPage` | envs/testing/tools/interface_4/grant_page_permission.py:53-71 | The page scan, then the space scan when the first fails, accepts exactly a direct grant of the wanted type on the page or a direct `moderate` grant on its space. |
| `Authority.FindPrincipalGrant` | envs/testing/tools/interface_4/grant_page_permission.py:77-81 | The duplicate scan finds a grant exactly when one on the same target names the same user, or the same group. |
| `Authority.InsertedGrantCounts` | envs/testing/tools/interface_4/grant_page_permission.py:58-60 | A grant naming the user directly gives them that authority. |
| `Authority.OtherPrincipalGrantIgnored` | envs/testing/tools/interface_4/grant_page_permission.py:58-60 | A new grant to a group, or to another user, never changes what a user may do. Authority through group membership is not consulted. |
| `Authority.InsertKeepsGrantInvariants` | envs/testing/tools/interface_4/grant_page_permission.py:77-97 | Inserting a one-principal grant that passed the duplicate test under a fresh key keeps two invariants: every grant names exactly one principal, and no principal is named twice on a target. |
| `Authority.RemoveKeepsGrantInvariants` | envs/testing/tools/interface_4/revoke_permission.py:78 | Deleting a grant keeps both grant-table invariants. |
| `GrantPagePermission.Invoke` | envs/testing/tools/interface_4/grant_page_permission.py:16-102 | Reply and new store are those of the specification. Checks run in source order: requester, page, target user, target group, principal count, type, authority, duplicate. The grant is then stored under max key + 1. |
| `GrantPagePermission.ExactlyOnePrincipal` | envs/testing/tools/interface_4/grant_page_permission.py:35-39 | Naming neither a user nor a group, or both, is rejected, and nothing changes. |
| `GrantPagePermission.RejectsUnknownType` | envs/testing/tools/interface_4/grant_page_permission.py:42-43 | A type outside view/edit/admin is rejected, and nothing changes. |
| `GrantPagePermission.SuccessNeedsAuthority` | envs/testing/tools/interface_4/grant_page_permission.py:50-74 | Success needs PlatformOwner, a direct `admin` grant on the page, or a direct `moderate` grant on the page's space. |
| `GrantPagePermission.DuplicateRejected` | envs/testing/tools/interface_4/grant_page_permission.py:77-81 | Any existing grant on the page for the same principal, of whatever type, makes the call fail without change. |
| `GrantPagePermission.SuccessAddsOneGrant` | envs/testing/tools/interface_4/grant_page_permission.py:84-97 | Success adds exactly one record under a fresh key, granted by the requester. Every other record and table is unchanged. |
| `GrantPagePermission.KeepsGrantInvariants` | envs/testing/tools/interface_4/grant_page_permission.py:35-97 | The call keeps the page-permission table free of principal-less and duplicate grants. |
| `GrantSpacePermission.Invoke` | envs/testing/tools/interface_4/grant_space_permission.py:16-90 | Reply and new store are those of the specification. Checks run in source order, then the grant is stored under max key + 1. |
| `GrantSpacePermission.ExactlyOnePrincipal` | envs/testing/tools/interface_4/grant_space_permission.py:34-38 | Naming neither principal, or both, is rejected, and nothing changes. |
| `GrantSpacePermission.RejectsUnknownType` | envs/testing/tools/interface_4/grant_space_permission.py:41-42 | A type outside view/contribute/moderate is rejected, and nothing changes. |
| `GrantSpacePermission.SuccessNeedsAuthority` | envs/testing/tools/interface_4/grant_space_permission.py:47-62 | Success needs PlatformOwner or a direct `moderate` grant on the same space. |
| `GrantSpacePermission.DuplicateRejected` | envs/testing/tools/interface_4/grant_space_permission.py:65-69 | Any existing grant on the space for the same principal makes the call fail without change. |
| `GrantSpacePermission.SuccessAddsOneGrant` | envs/testing/tools/interface_4/grant_space_permission.py:72-85 | Success adds exactly one record under a fresh key. Everything else is unchanged. |
| `GrantSpacePermission.KeepsGrantInvariants` | envs/testing/tools/interface_4/grant_space_permission.py:34-85 | The call keeps the space-permission table free of principal-less and duplicate grants. |
| `RevokePermission.Invoke` | envs/testing/tools/interface_4/revoke_permission.py:10-80 | Reply and new store are those of the specification: requester, table name, grant, authority, then deletion of that key. |
| `RevokePermission.SucceedsExactlyWhen` | envs/testing/tools/interface_4/revoke_permission.py:14-75 | Succeeds if and only if all of these hold: the requester exists, the table is one of the two, the grant is in it, and the requester may revoke it. Revokers are PlatformOwner, the grantor, a page admin or space moderator (page grants; the space scan only while the page exists), or a space moderator (space grants). |
| `RevokePermission.RejectsUnknownTable` | envs/testing/tools/interface_4/revoke_permission.py:19-20 | Any table name other than `page_permissions` and `space_permissions` gives the invalid-table error. |
| `RevokePermission.RejectedChangesNothing` | envs/testing/tools/interface_4/revoke_permission.py:74-75 | A rejected call deletes nothing. |
| `RevokePermission.SuccessRemovesExactlyThatKey` | envs/testing/tools/interface_4/revoke_permission.py:78 | Success removes exactly that key from the named table. The other table and all other records are unchanged. |
| `RevokePermission.KeepsGrantInvariants` | envs/testing/tools/interface_4/revoke_permission.py:78 | Revoking keeps both grant-table invariants on both tables. |
| `CreateNotification.Invoke` | envs/testing/tools/interface_4/create_notification.py:16-72 | Reply and new store are those of the specification. |
| `CreateNotification.RoleCheckedBeforeType` | envs/testing/tools/interface_4/create_notification.py:29-42 | The role gate comes before the type check. A requester who is neither PlatformOwner nor WikiProgramManager gets the authority error even for an invalid type. |
| `CreateNotification.RejectsUnknownTypes` | envs/testing/tools/interface_4/create_notification.py:33-45 | An unknown notification type, or a given target type other than space/page/comment, is rejected without change. |
| `CreateNotification.SucceedsExactlyWhen` | envs/testing/tools/interface_4/create_notification.py:20-45 | Succeeds if and only if: both users exist, the requester is PlatformOwner or WikiProgramManager, the type is valid, and the target type is absent or valid. |
| `CreateNotification.SuccessStoresOneUnreadNotification` | envs/testing/tools/interface_4/create_notification.py:48-67 | Success stores one notification under a fresh key. It is addressed to the target user, unread, with no read time, delivered on the web and created by the requester. Nothing else changes. |
| `UpdatePagesByFilter.Apply` | envs/testing/tools/interface_4/update_pages_by_filter.py:75-80 | An updated page takes the supplied status and content format, and `updated_at` becomes the fixed timestamp. Every other field is unchanged. |
| `UpdatePagesByFilter.Visit` | envs/testing/tools/interface_4/update_pages_by_filter.py:39-80 | One loop iteration selects the page exactly as the filters and the PlatformOwner / page-admin / space-moderate scans do, and rewrites a selected page with `Apply`. |
| `UpdatePagesByFilter.UpdatePass` | envs/testing/tools/interface_4/update_pages_by_filter.py:34-83 | The loop over the pages rewrites exactly the selected pages. It returns them, updated and in key order. |
| `UpdatePagesByFilter.Invoke` | envs/testing/tools/interface_4/update_pages_by_filter.py:18-83 | Reply and new store are those of the specification: requester, then the three enum checks, then the pass. |
| `UpdatePagesByFilter.InvalidEnumTouchesNothing` | envs/testing/tools/interface_4/update_pages_by_filter.py:25-32 | An invalid filter status, update status or content format is reported before any page is touched. |
| `UpdatePagesByFilter.RejectedChangesNothing` | envs/testing/tools/interface_4/update_pages_by_filter.py:19-32 | Every rejected call leaves the store as it was. |
| `UpdatePagesByFilter.OnlyPagesChange` | envs/testing/tools/interface_4/update_pages_by_filter.py:37-81 | Only the pages table changes, and no page is created or removed. |
| `UpdatePagesByFilter.UpdatedPagesMatchAndAreAuthorized` | envs/testing/tools/interface_4/update_pages_by_filter.py:39-80 | A page is rewritten if and only if two things hold. It matches every given filter. The requester is PlatformOwner, an admin of the page or a moderator of its space. Other pages stay as they were. |
| `UpdatePagesByFilter.ReplyListsUpdatedPages` | envs/testing/tools/interface_4/update_pages_by_filter.py:34-83 | The reply lists exactly the updated pages, one entry per selected page. It is empty exactly when no page is selected. |
| `UpdateCommentsStatus.Apply` | envs/testing/tools/interface_4/update_comments_status.py:78-79 | An updated comment takes the new status and the fixed `updated_at`. Nothing else in it changes. |
| `UpdateCommentsStatus.Visit` | envs/testing/tools/interface_4/update_comments_status.py:35-80 | One loop iteration applies the filters, then the authority tests in source order. Those are: PlatformOwner, author, and, only when the page exists, a page admin grant or a space moderate grant. |
| `UpdateCommentsStatus.UpdatePass` | envs/testing/tools/interface_4/update_comments_status.py:30-82 | The loop rewrites exactly the selected comments. It returns them, updated and in key order. |
| `UpdateCommentsStatus.Invoke` | envs/testing/tools/interface_4/update_comments_status.py:18-82 | Reply and new store are those of the specification. |
| `UpdateCommentsStatus.InvalidStatusTouchesNothing` | envs/testing/tools/interface_4/update_comments_status.py:24-28 | An invalid new status, or an invalid given current-status filter, is reported before any comment is touched. |
| `UpdateCommentsStatus.RejectedChangesNothing` | envs/testing/tools/interface_4/update_comments_status.py:18-28 | Every rejected call leaves the store as it was. |
| `UpdateCommentsStatus.OnlyCommentsChange` | envs/testing/tools/interface_4/update_comments_status.py:33-80 | Only the comments table changes, and it keeps its keys. |
| `UpdateCommentsStatus.UpdatedCommentsMatchAndAreAuthorized` | envs/testing/tools/interface_4/update_comments_status.py:35-80 | A comment is rewritten if and only if two things hold. It matches every given filter. The requester is PlatformOwner, its author, or an admin of its existing page or a moderator of that page's space. |
| `UpdateCommentsStatus.ReplyListsUpdatedComments` | envs/testing/tools/interface_4/update_comments_status.py:30-82 | The reply lists exactly the updated comments, one per selected comment. It is empty exactly when none is selected. |
| `UpdateAttachmentsMetadata.Apply` | envs/testing/tools/interface_4/update_attachments_metadata.py:71-72 | The filename is replaced only when a new one is given. Nothing else changes. |
| `UpdateAttachmentsMetadata.Visit` | envs/testing/tools/interface_4/update_attachments_metadata.py:27-74 | One loop iteration applies the filters, then these authority tests: PlatformOwner, uploader, and, when the attachment's page exists, a page admin grant or a space moderate grant. |
| `UpdateAttachmentsMetadata.UpdatePass` | envs/testing/tools/interface_4/update_attachments_metadata.py:23-76 | The loop rewrites exactly the selected attachments. It returns them in key order. |
| `UpdateAttachmentsMetadata.Invoke` | envs/testing/tools/interface_4/update_attachments_metadata.py:18-76 | Reply and new store are those of the specification. |
| `UpdateAttachmentsMetadata.OnlyUnknownRequesterFails` | envs/testing/tools/interface_4/update_attachments_metadata.py:18-19 | The call fails if and only if the requester is unknown. |
| `UpdateAttachmentsMetadata.OnlyAttachmentsChange` | envs/testing/tools/interface_4/update_attachments_metadata.py:25-74 | Only the attachments table changes, and it keeps its keys. |
| `UpdateAttachmentsMetadata.UpdatedAttachmentsMatchAndAreAuthorized` | envs/testing/tools/interface_4/update_attachments_metadata.py:27-72 | An attachment is rewritten if and only if two things hold. It matches every given filter. The requester is PlatformOwner, its uploader, or an admin of its existing page or a moderator of that page's space. |
| `UpdateAttachmentsMetadata.ReplyListsAuthorizedMatches` | envs/testing/tools/interface_4/update_attachments_metadata.py:23-76 | The reply lists every authorized match, one entry each, even when no filename is given and nothing changes. |
| `UpdateLinkValidation.Apply` | envs/testing/tools/interface_4/update_link_validation.py:73-74 | With `mark_as_checked` the last check becomes the fixed timestamp. Otherwise the link is left as it is. |
| `UpdateLinkValidation.Visit` | envs/testing/tools/interface_4/update_link_validation.py:31-76 | One loop iteration applies the type filter and the checked-before filter. Then it tests PlatformOwner, and, when the source page exists, an edit-or-admin page grant or a space moderate grant. |
| `UpdateLinkValidation.UpdatePass` | envs/testing/tools/interface_4/update_link_validation.py:26-78 | The loop rewrites exactly the selected links. It returns them in key order. |
| `UpdateLinkValidation.Invoke` | envs/testing/tools/interface_4/update_link_validation.py:17-78 | Reply and new store are those of the specification. |
| `UpdateLinkValidation.RejectsUnknownLinkType` | envs/testing/tools/interface_4/update_link_validation.py:23-24 | A given link type other than internal/external is rejected, and nothing changes. |
| `UpdateLinkValidation.DateFilterSkips` | envs/testing/tools/interface_4/update_link_validation.py:35-38 | With a date bound, a link never checked, or last checked at or after the bound (string order), is left alone. |
| `UpdateLinkValidation.UpdatedLinksMatchAndAreAuthorized` | envs/testing/tools/interface_4/update_link_validation.py:31-74 | A link is rewritten if and only if two things hold. It passes the filters. The requester is PlatformOwner, or an editor or admin of its existing source page, or a moderator of that page's space. |
| `UpdateLinkValidation.OnlyLinksChange` | envs/testing/tools/interface_4/update_link_validation.py:29-76 | Only the links table changes, and it keeps its keys. |
| `UpdateLinkValidation.ReplyListsUpdatedLinks` | envs/testing/tools/interface_4/update_link_validation.py:26-78 | The reply lists exactly the links that passed the filters and the authority test, each as stored after the update, with one entry per such link. |
| `Authority.AdminIsEditorOrAdmin` | envs/testing/tools/interface_4/update_link_validation.py:53-58 | Everyone the admin-only page scans accept is also accepted by the link tools' edit-or-admin scan. |
| `UpdateBrokenLinksStatus.Apply` | envs/testing/tools/interface_4/update_broken_links_status.py:70-71 | An updated link takes the new broken flag and the fixed last-check time. Nothing else changes. |
| `UpdateBrokenLinksStatus.Visit` | envs/testing/tools/interface_4/update_broken_links_status.py:26-72 | One loop iteration applies the source-page filter and the space filter, which applies only when the source page exists. Then it tests PlatformOwner, or an edit-or-admin page grant or a space moderate grant on an existing source page. |
| `UpdateBrokenLinksStatus.UpdatePass` | envs/testing/tools/interface_4/update_broken_links_status.py:22-74 | The loop rewrites exactly the selected links. It returns them in key order. |
| `UpdateBrokenLinksStatus.Invoke` | envs/testing/tools/interface_4/update_broken_links_status.py:17-74 | Reply and new store are those of the specification. |
| `UpdateBrokenLinksStatus.OnlyUnknownRequesterFails` | envs/testing/tools/interface_4/update_broken_links_status.py:17-18 | The call fails if and only if the requester is unknown. |
| `UpdateBrokenLinksStatus.DanglingSourcePassesSpaceFilter` | envs/testing/tools/interface_4/update_broken_links_status.py:33-36 | For a PlatformOwner, a link whose source page no longer exists passes any space filter and is updated. |
| `UpdateBrokenLinksStatus.UpdatedLinksMatchAndAreAuthorized` | envs/testing/tools/interface_4/update_broken_links_status.py:29-71 | A link is rewritten if and only if two things hold. It passes both filters. The requester is PlatformOwner, or an editor or admin of the existing source page, or a moderator of that page's space. |
| `UpdateBrokenLinksStatus.OnlyLinksChange` | envs/testing/tools/interface_4/update_broken_links_status.py:25-72 | Only the links table changes, and it keeps its keys. |
| `UpdateBrokenLinksStatus.ReplyListsUpdatedLinks` | envs/testing/tools/interface_4/update_broken_links_status.py:22-74 | The reply lists exactly the links that passed the filters and the authority test, each as stored after the update, with one entry per such link. |
| `UpdateTemplatesByFilter.Apply` | envs/testing/tools/interface_4/update_templates_by_filter.py:56-61 | Category and description are replaced when supplied, an empty string included. `updated_at` becomes the fixed timestamp. Nothing else changes. |
| `UpdateTemplatesByFilter.Visit` | envs/testing/tools/interface_4/update_templates_by_filter.py:27-62 | One loop iteration applies the three filters, then these authority tests: PlatformOwner, creator, and a space moderate grant for a non-global template with a space. |
| `UpdateTemplatesByFilter.UpdatePass` | envs/testing/tools/interface_4/update_templates_by_filter.py:22-64 | The loop rewrites exactly the selected templates. It returns them in key order. |
| `UpdateTemplatesByFilter.Invoke` | envs/testing/tools/interface_4/update_templates_by_filter.py:17-64 | Reply and new store are those of the specification. |
| `UpdateTemplatesByFilter.FalseGlobalFilterSkipsGlobal` | envs/testing/tools/interface_4/update_templates_by_filter.py:29-30 | `filter_is_global = false` is a real filter: a global template is never touched by it. |
| `UpdateTemplatesByFilter.GlobalTemplatesNeedOwnerOrCreator` | envs/testing/tools/interface_4/update_templates_by_filter.py:38-50 | A space moderator cannot touch a global template they did not create. |
| `UpdateTemplatesByFilter.UpdatedTemplatesMatchAndAreAuthorized` | envs/testing/tools/interface_4/update_templates_by_filter.py:27-61 | A template is rewritten if and only if it matches the filters and the requester may update it. |
| `UpdateTemplatesByFilter.ReplyListsUpdatedTemplates` | envs/testing/tools/interface_4/update_templates_by_filter.py:22-64 | The reply lists exactly the updated templates. It is empty when nothing is selected. |
| `UpdateTemplatesByFilter.OnlyTemplatesChange` | envs/testing/tools/interface_4/update_templates_by_filter.py:25-62 | Only the templates table changes, and it keeps its keys. |
| `UpdateSpacesByFilter.Apply` | envs/testing/tools/interface_4/update_spaces_by_filter.py:49-54 | The status is replaced when given, and anonymous access when supplied, `false` included. `updated_at` becomes the fixed timestamp. Nothing else changes. |
| `UpdateSpacesByFilter.UpdatePass` | envs/testing/tools/interface_4/update_spaces_by_filter.py:36-57 | The loop rewrites exactly the matching spaces. It returns them in key order. |
| `UpdateSpacesByFilter.Invoke` | envs/testing/tools/interface_4/update_spaces_by_filter.py:17-57 | Reply and new store are those of the specification: requester, role gate, three enum checks, pass. |
| `UpdateSpacesByFilter.RoleCheckedBeforeEnums` | envs/testing/tools/interface_4/update_spaces_by_filter.py:23-34 | The role gate comes first. A user who is neither PlatformOwner nor WikiProgramManager gets the authority error whatever the other arguments are. |
| `UpdateSpacesByFilter.InvalidEnumTouchesNothing` | envs/testing/tools/interface_4/update_spaces_by_filter.py:27-34 | An invalid type filter, status filter or new status is rejected, and nothing changes. |
| `UpdateSpacesByFilter.EveryMatchIsUpdated` | envs/testing/tools/interface_4/update_spaces_by_filter.py:39-54 | Every matching space is updated, with no per-space authority test. Every other space is unchanged. |
| `UpdateSpacesByFilter.ReplyListsUpdatedSpaces` | envs/testing/tools/interface_4/update_spaces_by_filter.py:36-57 | The reply lists exactly the updated spaces, one per matching space. |
| `UpdateSpacesByFilter.OnlySpacesChange` | envs/testing/tools/interface_4/update_spaces_by_filter.py:39-55 | Only the spaces table changes, and it keeps its keys. |
| `UpdateSpacesByFilter.UpdateWhereIdempotent` | envs/testing/tools/interface_4/update_spaces_by_filter.py:39-54 | Applying the update to the already-updated table changes nothing more, when a given new status equals a given status filter. |
| `UpdateSpacesByFilter.UpdateIsIdempotent` | envs/testing/tools/interface_4/update_spaces_by_filter.py:17-57 | Under the same condition, a second identical call leaves the store as the first call left it. |
| `UpdateLabelsByFilter.Apply` | envs/testing/tools/interface_4/update_labels_by_filter.py:57-62 | Color and description are replaced when supplied, an empty string included. `created_at` is overwritten with the fixed timestamp, as the handler does. Nothing else changes. |
| `UpdateLabelsByFilter.Visit` | envs/testing/tools/interface_4/update_labels_by_filter.py:27-63 | One loop iteration applies the three filters, then these authority tests: PlatformOwner, creator, space moderate grant. |
| `UpdateLabelsByFilter.UpdatePass` | envs/testing/tools/interface_4/update_labels_by_filter.py:22-65 | The loop rewrites exactly the selected labels. It returns them in key order. |
| `UpdateLabelsByFilter.Invoke` | envs/testing/tools/interface_4/update_labels_by_filter.py:17-65 | Reply and new store are those of the specification. |
| `UpdateLabelsByFilter.UpdatedLabelsMatchAndAreAuthorized` | envs/testing/tools/interface_4/update_labels_by_filter.py:27-62 | A label is rewritten if and only if two things hold. It matches the filters. The requester is PlatformOwner, its creator or a moderator of its space. |
| `UpdateLabelsByFilter.OthersLabelsNeedOwnerOrModerator` | envs/testing/tools/interface_4/update_labels_by_filter.py:39-54 | A label the requester did not create, in a space they do not moderate, is left alone unless they are PlatformOwner. |
| `UpdateLabelsByFilter.ReplyListsUpdatedLabels` | envs/testing/tools/interface_4/update_labels_by_filter.py:22-65 | The reply lists exactly the updated labels. It is empty when nothing is selected. |
| `UpdateLabelsByFilter.OnlyLabelsChange` | envs/testing/tools/interface_4/update_labels_by_filter.py:25-63 | Only the labels table changes, and it keeps its keys. |
| `UpdateUsersByFilter.Apply` | envs/testing/tools/interface_4/update_users_by_filter.py:47-52 | Status and timezone are replaced when given and non-empty. `updated_at` becomes the fixed timestamp. Nothing else changes. |
| `UpdateUsersByFilter.UpdatePass` | envs/testing/tools/interface_4/update_users_by_filter.py:34-55 | The loop rewrites exactly the users that match the role, status and e-mail domain filters. It returns them in key order. |
| `UpdateUsersByFilter.Invoke` | envs/testing/tools/interface_4/update_users_by_filter.py:15-55 | Reply and new store are those of the specification. |
| `UpdateUsersByFilter.SuccessNeedsOwner` | envs/testing/tools/interface_4/update_users_by_filter.py:21-22 | A requester who exists but is not PlatformOwner gets the authority error, whatever the other arguments are, and nothing changes. |
| `UpdateUsersByFilter.InvalidEnumTouchesNothing` | envs/testing/tools/interface_4/update_users_by_filter.py:25-32 | An invalid role filter, status filter or new status is rejected, and nothing changes. |
| `UpdateUsersByFilter.EveryMatchIsUpdated` | envs/testing/tools/interface_4/update_users_by_filter.py:37-53 | A user is rewritten exactly when they match; any user whose address does not end in `@domain` is untouched. No role or e-mail changes, so the requester is still PlatformOwner afterwards. |
| `UpdateUsersByFilter.ReplyListsUpdatedUsers` | envs/testing/tools/interface_4/update_users_by_filter.py:34-55 | The reply lists exactly the updated users, one per matching user. |
| `UpdateUsersByFilter.OnlyUsersChange` | envs/testing/tools/interface_4/update_users_by_filter.py:37-53 | Only the users table changes, and it keeps its keys. |
| `UpdateWatchersStatus.Apply` | envs/testing/tools/interface_4/update_watchers_status.py:49-51 | The watch type is always set. The notification flag is set only when supplied. Nothing else changes. |
| `UpdateWatchersStatus.Visit` | envs/testing/tools/interface_4/update_watchers_status.py:31-53 | One loop iteration applies the three filters, then accepts PlatformOwner or the watcher's own user. |
| `UpdateWatchersStatus.UpdatePass` | envs/testing/tools/interface_4/update_watchers_status.py:27-55 | The loop rewrites exactly the selected watchers. It returns them in key order. |
| `UpdateWatchersStatus.Invoke` | envs/testing/tools/interface_4/update_watchers_status.py:15-55 | Reply and new store are those of the specification. |
| `UpdateWatchersStatus.InvalidEnumTouchesNothing` | envs/testing/tools/interface_4/update_watchers_status.py:21-25 | An invalid given target type or watch type is rejected, and nothing changes. |
| `UpdateWatchersStatus.UpdatedWatchersMatchAndAreAuthorized` | envs/testing/tools/interface_4/update_watchers_status.py:31-51 | A watcher is rewritten if and only if two things hold. It matches the filters. The requester owns it or is PlatformOwner. |
| `UpdateWatchersStatus.OthersWatchersUntouched` | envs/testing/tools/interface_4/update_watchers_status.py:39-46 | A requester who is not PlatformOwner never changes another user's watcher. |
| `UpdateWatchersStatus.ReplyListsUpdatedWatchers` | envs/testing/tools/interface_4/update_watchers_status.py:27-55 | The reply lists exactly the updated watchers, one per selected watcher. |
| `UpdateWatchersStatus.OnlyWatchersChange` | envs/testing/tools/interface_4/update_watchers_status.py:29-53 | Only the watchers table changes, and it keeps its keys. |
| `UpdateNotificationPreferences.Apply` | envs/testing/tools/interface_4/update_notification_preferences.py:46 | Only the delivery method changes. |
| `UpdateNotificationPreferences.Visit` | envs/testing/tools/interface_4/update_notification_preferences.py:30-47 | One loop iteration applies the two filters, then accepts PlatformOwner or the recipient. |
| `UpdateNotificationPreferences.UpdatePass` | envs/testing/tools/interface_4/update_notification_preferences.py:26-49 | The loop rewrites exactly the selected notifications. It returns them in key order. |
| `UpdateNotificationPreferences.Invoke` | envs/testing/tools/interface_4/update_notification_preferences.py:14-49 | Reply and new store are those of the specification. |
| `UpdateNotificationPreferences.InvalidEnumTouchesNothing` | envs/testing/tools/interface_4/update_notification_preferences.py:20-24 | An invalid delivery method, as a filter or as the new value, is rejected, and nothing changes. |
| `UpdateNotificationPreferences.UpdatedNotificationsMatchAndAreAuthorized` | envs/testing/tools/interface_4/update_notification_preferences.py:30-46 | A notification is rewritten if and only if two things hold. It matches the filters. The requester is its recipient or PlatformOwner. Only its delivery method changes, to a valid one. |
| `UpdateNotificationPreferences.OthersNotificationsUntouched` | envs/testing/tools/interface_4/update_notification_preferences.py:36-43 | A requester who is not PlatformOwner never changes another user's notification. |
| `UpdateNotificationPreferences.ReplyListsUpdatedNotifications` | envs/testing/tools/interface_4/update_notification_preferences.py:26-49 | The reply lists exactly the updated notifications. |
| `UpdateNotificationPreferences.OnlyNotificationsChange` | envs/testing/tools/interface_4/update_notification_preferences.py:28-47 | Only the notifications table changes, and it keeps its keys. |
| `UpdateUserRoles.Apply` | envs/testing/tools/interface_4/update_user_roles.py:40-41 | The role is replaced and `updated_at` set. Nothing else changes. |
| `UpdateUserRoles.UpdatePass` | envs/testing/tools/interface_4/update_user_roles.py:29-44 | The loop gives exactly the matching users the new role. It returns them in key order. |
| `UpdateUserRoles.Invoke` | envs/testing/tools/interface_4/update_user_roles.py:13-44 | Reply and new store are those of the specification. |
| `UpdateUserRoles.SuccessNeedsOwner` | envs/testing/tools/interface_4/update_user_roles.py:19-20 | A requester who exists but is not PlatformOwner gets the authority error, whatever the other arguments are. |
| `UpdateUserRoles.InvalidRoleTouchesNothing` | envs/testing/tools/interface_4/update_user_roles.py:23-27 | A role outside the three, as a filter or as the new role, is rejected, and nothing changes. |
| `UpdateUserRoles.EveryMatchGetsTheRole` | envs/testing/tools/interface_4/update_user_roles.py:32-41 | Every matching user gets the new role and every other user is unchanged. Every role stays one of the three. |
| `UpdateUserRoles.SelfDemotionLocksOut` | envs/testing/tools/interface_4/update_user_roles.py:19-41 | A PlatformOwner whose own record matches and who sets another role demotes themself. Their next call of this tool is refused. |
| `UpdateUserRoles.UpdateWhereIdempotent` | envs/testing/tools/interface_4/update_user_roles.py:32-41 | Applying the role update to the already-updated table changes nothing more. |
| `UpdateUserRoles.UpdateIsIdempotent` | envs/testing/tools/interface_4/update_user_roles.py:13-44 | A second identical call leaves the store as the first call left it. |
| `UpdateUserRoles.ReplyListsUpdatedUsers` | envs/testing/tools/interface_4/update_user_roles.py:29-44 | The reply lists exactly the updated users, one per matching user. |
| `UpdateGroupsByFilter.Apply` | envs/testing/tools/interface_4/update_groups_by_filter.py:38-39 | The description is replaced when supplied, an empty string included. No timestamp is set and nothing else changes. |
| `UpdateGroupsByFilter.UpdatePass` | envs/testing/tools/interface_4/update_groups_by_filter.py:28-43 | The loop rewrites exactly the matching groups. It returns them all, updated or not, in key order. |
| `UpdateGroupsByFilter.Invoke` | envs/testing/tools/interface_4/update_groups_by_filter.py:15-43 | Reply and new store are those of the specification. |
| `UpdateGroupsByFilter.TypeCheckedBeforeRole` | envs/testing/tools/interface_4/update_groups_by_filter.py:21-26 | The type filter is validated before the role. A plain user with an invalid type gets the invalid-type error. |
| `UpdateGroupsByFilter.NoDescriptionChangesNothing` | envs/testing/tools/interface_4/update_groups_by_filter.py:38-41 | Without a new description the call changes nothing, yet it still lists every matching group. |
| `UpdateGroupsByFilter.EveryMatchIsUpdated` | envs/testing/tools/interface_4/update_groups_by_filter.py:30-39 | Every matching group is updated and every other group is unchanged. |
| `UpdateGroupsByFilter.ReplyListsMatchingGroups` | envs/testing/tools/interface_4/update_groups_by_filter.py:28-43 | The reply lists exactly the matching groups, after the update. |
| `UpdateGroupsByFilter.OnlyGroupsChange` | envs/testing/tools/interface_4/update_groups_by_filter.py:30-41 | Only the groups table changes, and it keeps its keys. |
| `MarkNotificationsRead.MarkRead` | envs/testing/tools/interface_4/mark_notifications_read.py:40-41 | Marking sets `is_read` and `read_at` and nothing else. |
| `MarkNotificationsRead.MarkPass` | envs/testing/tools/interface_4/mark_notifications_read.py:20-42 | The loop marks exactly the requester's unread notifications that were asked for, and counts them. |
| `MarkNotificationsRead.Invoke` | envs/testing/tools/interface_4/mark_notifications_read.py:14-48 | Reply and new store are those of the specification. |
| `MarkNotificationsRead.NothingRequestedIsRejected` | envs/testing/tools/interface_4/mark_notifications_read.py:17-18 | Giving neither IDs nor `mark_all_read` is an error, and nothing is marked. |
| `MarkNotificationsRead.MarksExactlyTheRequested` | envs/testing/tools/interface_4/mark_notifications_read.py:23-41 | A notification is marked if and only if it is the requester's, unread, and asked for, by `mark_all_read` or by being listed. |
| `MarkNotificationsRead.OthersNotificationsUntouched` | envs/testing/tools/interface_4/mark_notifications_read.py:25-26 | Another user's notification is never touched, even when its ID is listed. |
| `MarkNotificationsRead.MarkAllLeavesNoneUnread` | envs/testing/tools/interface_4/mark_notifications_read.py:34-41 | With `mark_all_read`, none of the requester's notifications is left unread. |
| `MarkNotificationsRead.CountIsUnreadRequested` | envs/testing/tools/interface_4/mark_notifications_read.py:39-46 | The count is the number of the requester's unread notifications that were asked for. |
| `MarkNotificationsRead.MarkedTableSelectsNothing` | envs/testing/tools/interface_4/mark_notifications_read.py:29-41 | After marking, no notification is selected any more. |
| `MarkNotificationsRead.RepeatMarksNothing` | envs/testing/tools/interface_4/mark_notifications_read.py:14-48 | Repeating the call changes nothing and reports zero. |
| `Memberships.InsertKeepsNoDuplicates` | envs/testing/tools/interface_4/add_user_to_group.py:35-52 | Inserting, under a fresh key, a membership that is not yet recorded keeps every (user, group) pair recorded at most once. |
| `Memberships.RemoveEndsMembership` | envs/testing/tools/interface_4/remove_user_from_group.py:41 | While no pair is recorded twice, deleting the one row for a pair leaves the user outside the group and keeps the invariant. |
| `AddUserToGroup.Invoke` | envs/testing/tools/interface_4/add_user_to_group.py:14-58 | Reply and new store are those of the specification. Checks run in order: requester, target, group, manager role, membership scan. Then the row is inserted under max key + 1. |
| `AddUserToGroup.SucceedsExactlyWhen` | envs/testing/tools/interface_4/add_user_to_group.py:19-38 | Succeeds if and only if all of these hold: the three records exist, the requester is PlatformOwner or WikiProgramManager, and the user is not yet a member. |
| `AddUserToGroup.RejectedChangesNothing` | envs/testing/tools/interface_4/add_user_to_group.py:19-38 | A rejected call records nothing. |
| `AddUserToGroup.SuccessAddsOneMembership` | envs/testing/tools/interface_4/add_user_to_group.py:41-52 | Success adds exactly one row, under a fresh key. The row records the target in the group, added by the requester. Nothing else changes. |
| `AddUserToGroup.RepeatIsRefused` | envs/testing/tools/interface_4/add_user_to_group.py:35-38 | Adding the same user to the same group again is refused. |
| `AddUserToGroup.KeepsNoDuplicates` | envs/testing/tools/interface_4/add_user_to_group.py:35-52 | The call never records a user twice in a group. |
| `RemoveUserFromGroup.Invoke` | envs/testing/tools/interface_4/remove_user_from_group.py:14-43 | Reply and new store are those of the specification. The first matching row in key order is the one deleted. |
| `RemoveUserFromGroup.SucceedsExactlyWhen` | envs/testing/tools/interface_4/remove_user_from_group.py:14-38 | Succeeds if and only if all of these hold: the three records exist, the requester is PlatformOwner or WikiProgramManager, and the user is a member. |
| `RemoveUserFromGroup.RejectedChangesNothing` | envs/testing/tools/interface_4/remove_user_from_group.py:14-38 | A rejected call deletes nothing. |
| `RemoveUserFromGroup.SuccessRemovesOneMembership` | envs/testing/tools/interface_4/remove_user_from_group.py:30-41 | Success deletes exactly one row, one that records the target in the group and has no matching row at a smaller key. Nothing else changes. |
| `RemoveUserFromGroup.EndsMembership` | envs/testing/tools/interface_4/remove_user_from_group.py:41 | While no user is recorded twice in a group, success leaves the target outside the group. |
| `Authority.CheckManagesExistingPage` | envs/testing/tools/interface_4/delete_comment.py:39-58 | The page and space scans run only when the page exists. The method accepts exactly a direct grant of the wanted type on that page or a direct `moderate` grant on its space. |
| `DeleteComment.Invoke` | envs/testing/tools/interface_4/delete_comment.py:16-75 | Reply and new store are those of the specification. Checks run in order: comment, requester, authority, replies. Then the deletion. |
| `DeleteComment.SucceedsExactlyWhen` | envs/testing/tools/interface_4/delete_comment.py:16-70 | Succeeds if and only if all of these hold: both records exist, the requester may delete the comment, and no comment replies to it. Deleters are PlatformOwner, the author, or a page admin or space moderator of its existing page. |
| `DeleteComment.RejectedChangesNothing` | envs/testing/tools/interface_4/delete_comment.py:16-70 | A rejected call deletes nothing. |
| `DeleteComment.RepliedCommentSurvives` | envs/testing/tools/interface_4/delete_comment.py:64-70 | A comment with a reply is never deleted, whoever asks. |
| `DeleteComment.SuccessRemovesOnlyThatComment` | envs/testing/tools/interface_4/delete_comment.py:73 | Success removes exactly that comment and changes nothing else. |
| `DeleteComment.KeepsParentsExisting` | envs/testing/tools/interface_4/delete_comment.py:64-73 | Only comments without replies are deleted. So if every `parent_comment_id` named an existing comment before, it still does. |
| `DeleteUserGroup.Invoke` | envs/testing/tools/interface_4/delete_user_group.py:16-63 | Reply and new store are those of the specification. Checks run in order: group, requester, owner, system group, grant scans. Then memberships and group are deleted. |
| `DeleteUserGroup.SucceedsExactlyWhen` | envs/testing/tools/interface_4/delete_user_group.py:16-49 | Succeeds if and only if all of these hold: both records exist, the requester is PlatformOwner, the group is not a system group, and no page or space grant names it. |
| `DeleteUserGroup.RejectedChangesNothing` | envs/testing/tools/interface_4/delete_user_group.py:16-49 | A rejected call deletes nothing. |
| `DeleteUserGroup.SuccessRemovesGroupAndMemberships` | envs/testing/tools/interface_4/delete_user_group.py:52-61 | Success removes the group and exactly its membership rows. Every other row and table is unchanged, so no grant names the deleted group. |
| `DeleteUserGroup.GroupWithGrantSurvives` | envs/testing/tools/interface_4/delete_user_group.py:35-49 | A group that holds a page grant is never deleted. |
| `DeleteUserGroup.KeepsMembershipsReferential` | envs/testing/tools/interface_4/delete_user_group.py:52-61 | If every membership row named an existing group before, it still does afterwards. |
| `CreateUserGroup.NewGroup` | envs/testing/tools/interface_4/create_user_group.py:41-48 | The stored group carries the given name and type, the requester as creator, and no members. |
| `CreateUserGroup.Invoke` | envs/testing/tools/interface_4/create_user_group.py:19-56 | Reply and new store are those of the specification. Checks run in order: requester, owner, type, name scan. Then the insertion under max key + 1. |
| `CreateUserGroup.SucceedsExactlyWhen` | envs/testing/tools/interface_4/create_user_group.py:19-35 | Succeeds if and only if all of these hold: the requester exists and is PlatformOwner, the type is system or custom, and no group has the same name up to letter case. |
| `CreateUserGroup.CaseVariantRefused` | envs/testing/tools/interface_4/create_user_group.py:33-35 | A name that differs from an existing one only in letter case is refused, and nothing changes. |
| `CreateUserGroup.SuccessAddsOneGroup` | envs/testing/tools/interface_4/create_user_group.py:38-51 | Success adds one group under a fresh key and changes nothing else. |
| `CreateUserGroup.KeepsNamesDistinct` | envs/testing/tools/interface_4/create_user_group.py:33-51 | Creating a group keeps group names distinct up to letter case. |
| `CreateUserGroup.RepeatIsRefused` | envs/testing/tools/interface_4/create_user_group.py:33-35 | Creating the same group twice is refused the second time. |
| `CreateLabel.NewLabel` | envs/testing/tools/interface_4/create_label.py:58-66 | The stored label has the given name and space and the requester as creator. It is unused. Its color falls back to `#007acc` when none, or an empty one, is given. |
| `CreateLabel.Invoke` | envs/testing/tools/interface_4/create_label.py:21-74 | Reply and new store are those of the specification. Checks run in order: requester, space, name scan, permission scan. Then the insertion under max key + 1. |
| `CreateLabel.SucceedsExactlyWhen` | envs/testing/tools/interface_4/create_label.py:21-52 | Succeeds if and only if all of these hold: requester and space exist, the name is free in the space up to letter case, and the requester is PlatformOwner or holds a direct contribute or moderate grant on the space. |
| `CreateLabel.DuplicateCheckedBeforeAuthority` | envs/testing/tools/interface_4/create_label.py:31-52 | The duplicate test runs before the permission test. A requester without any grant learns that the name exists. |
| `CreateLabel.SuccessAddsOneLabel` | envs/testing/tools/interface_4/create_label.py:55-69 | Success adds one label under a fresh key and changes nothing else. |
| `CreateLabel.KeepsNamesDistinct` | envs/testing/tools/interface_4/create_label.py:31-69 | Creating a label keeps label names distinct, up to letter case, within each space. |
| `DeleteSpace.MarkDeleted` | envs/testing/tools/interface_4/delete_space.py:53-54 | Marking sets the page's status to `deleted` and its `updated_at`, and nothing else. |
| `DeleteSpace.MarkPagesDeleted` | envs/testing/tools/interface_4/delete_space.py:43-54 | The pages of the space are collected in key order and each is marked deleted. Every other page is unchanged. |
| `DeleteSpace.Cascade` | envs/testing/tools/interface_4/delete_space.py:43-85 | The deletions run in source order. With force the pages are marked. Then come the space grants, then the page grants on the space's pages, then the labels, then the space. Each step's table is stated against the one before. |
| `DeleteSpace.Invoke` | envs/testing/tools/interface_4/delete_space.py:18-87 | Reply and new store are those of the specification. Checks run in order: space, requester, owner, and, without force, the count of pages not marked deleted. Then the cascade. |
| `DeleteSpace.SucceedsExactlyWhen` | envs/testing/tools/interface_4/delete_space.py:18-40 | Succeeds if and only if all of these hold: space and requester exist, the requester is PlatformOwner, and either force is set or every page of the space is already marked deleted. |
| `DeleteSpace.RejectedChangesNothing` | envs/testing/tools/interface_4/delete_space.py:18-40 | A rejected call deletes nothing. |
| `DeleteSpace.SuccessIsAfterDelete` | envs/testing/tools/interface_4/delete_space.py:43-85 | A successful call leaves the store as the cascade function describes it. |
| `DeleteSpace.DeletionCascades` | envs/testing/tools/interface_4/delete_space.py:57-85 | The space is removed, with every grant on it, every grant on one of its pages and every label in it. Grants and labels elsewhere are kept unchanged. |
| `DeleteSpace.PagesAreKept` | envs/testing/tools/interface_4/delete_space.py:43-54 | Pages are never removed. With force, every page of the space is marked deleted. Without force they are left as they were, and were already deleted. Other pages are untouched. |
| `DeleteSpace.OtherTablesUntouched` | envs/testing/tools/interface_4/delete_space.py:43-85 | Users, groups, memberships, comments, watchers, notifications, templates, links and attachments are untouched. |
| `ReadUserPermissions.CollectGrants` | envs/testing/tools/interface_4/read_user_permissions.py:42-50 | One collection loop lists, in key order, every grant the target holds directly that passes the type filter, each with its context name. |
| `ReadUserPermissions.Invoke` | envs/testing/tools/interface_4/read_user_permissions.py:17-64 | The reply is that of the specification, and the store is not changed. |
| `ReadUserPermissions.SucceedsExactlyWhen` | envs/testing/tools/interface_4/read_user_permissions.py:17-32 | Succeeds if and only if all of these hold: both users exist, the requester is PlatformOwner or reads their own grants, and a given target type is page or space. |
| `ReadUserPermissions.PageListIsExact` | envs/testing/tools/interface_4/read_user_permissions.py:41-50 | The page list holds exactly the page grants the target holds directly that pass the type filter, one entry per grant. Each carries its page's title, or "Unknown". |
| `ReadUserPermissions.SpaceListIsExact` | envs/testing/tools/interface_4/read_user_permissions.py:53-62 | The space list holds exactly the space grants the target holds directly that pass the type filter, one entry per grant. Each carries its space's name, or "Unknown". |
| `ReadUserPermissions.TargetFilterEmptiesOtherList` | envs/testing/tools/interface_4/read_user_permissions.py:34-53 | The target-type filter leaves the other list empty. |
| `ReadUserPermissions.GroupGrantsNotListed` | envs/testing/tools/interface_4/read_user_permissions.py:43 | A page grant held by a group never appears. |
| `ReadPageHierarchy.InsertByTitlePermutes` | envs/testing/tools/interface_4/read_page_hierarchy.py:27 | Inserting a node into a list adds exactly that node: the result's multiset is the input's plus the node. |
| `ReadPageHierarchy.InsertByTitleSorted` | envs/testing/tools/interface_4/read_page_hierarchy.py:27 | Inserting a node into a title-sorted list keeps it sorted and adds exactly that node. |
| `ReadPageHierarchy.SortByTitleSorted` | envs/testing/tools/interface_4/read_page_hierarchy.py:27 | The sort by title is a permutation of its input, and its result is sorted by title. |
| `ReadPageHierarchy.SortKeepsMembers` | envs/testing/tools/interface_4/read_page_hierarchy.py:27 | A node is in the sorted list if and only if it is in the input. |
| `ReadPageHierarchy.ChildNodesMembers` | envs/testing/tools/interface_4/read_page_hierarchy.py:14-25 | The scan over the pages yields exactly one node for each current page of the space under the parent. |
| `ReadPageHierarchy.SortedLevelMembers` | envs/testing/tools/interface_4/read_page_hierarchy.py:10-27 | A level of the tree holds exactly the nodes of the current pages of the space under its parent, unless the depth cut applies. |
| `ReadPageHierarchy.BuildHierarchyWellFormed` | envs/testing/tools/interface_4/read_page_hierarchy.py:10-27 | Every node of the tree is a current page of the space, listed under its own parent, with that page's title, author and creation time. |
| `ReadPageHierarchy.BuildHierarchyWithinDepth` | envs/testing/tools/interface_4/read_page_hierarchy.py:11-12 | With a non-zero `max_depth`, the tree built at a depth has at most `max_depth` minus that depth levels. |
| `ReadPageHierarchy.BuildHierarchySorted` | envs/testing/tools/interface_4/read_page_hierarchy.py:10-27 | Every level of the tree is sorted by title. |
| `ReadPageHierarchy.BuildHierarchyComplete` | envs/testing/tools/interface_4/read_page_hierarchy.py:14-25 | Unless the depth cut applies, every current page of the space under the parent is listed at that level. |
| `ReadPageHierarchy.Invoke` | envs/testing/tools/interface_4/read_page_hierarchy.py:35-67 | The reply is that of the specification, and the store is not changed. Checks run in order: requester, space, then owner or a direct view/contribute/moderate grant. Then the tree from the root. |
| `ReadPageHierarchy.SucceedsExactlyWhen` | envs/testing/tools/interface_4/read_page_hierarchy.py:35-60 | Succeeds if and only if all of these hold: requester and space exist, and the requester is PlatformOwner or holds a direct view, contribute or moderate grant on the space. |
| `ReadPageHierarchy.ReplyTreeProperties` | envs/testing/tools/interface_4/read_page_hierarchy.py:63-67 | The reply names the space. Its tree is well formed below the root and sorted at every level. With a non-zero `max_depth` it has at most that many levels. |
| `Tables.DeleteWhere` | envs/testing/tools/interface_4/delete_user_group.py:52-58 | The collect-then-delete loops remove exactly the rows the predicate selects. Every other row is kept unchanged. |
| `Tables.Count` | envs/testing/tools/interface_4/delete_space.py:34-40 | The collection of active pages has exactly as many entries as the table has selected rows. |
| `Tables.Scan` | envs/testing/tools/interface_4/add_user_to_group.py:35-38 | The early-exit existence scan reports true exactly when some row satisfies the predicate. |
| `Tables.FindFirst` | envs/testing/tools/interface_4/remove_user_from_group.py:30-35 | The scan that breaks at the first match returns the least key whose row matches, or nothing when no row does. |
| `Base.GenerateId` | envs/testing/tools/interface_4/grant_page_permission.py:11-14 | The new key is 1 for an empty table and otherwise one more than the largest key. It is never in the table, and it exceeds every key there. |
| `Base.BeforeIrreflexive` | envs/testing/tools/interface_4/read_page_hierarchy.py:27 | Python's string order, on which the title sort rests, is irreflexive. |
| `Base.BeforeAsymmetric` | envs/testing/tools/interface_4/read_page_hierarchy.py:27 | The string order is asymmetric. |
| `Base.BeforeTransitive` | envs/testing/tools/interface_4/read_page_hierarchy.py:27 | The string order is transitive. |
| `Base.BeforeTotal` | envs/testing/tools/interface_4/read_page_hierarchy.py:27 | Any two distinct strings are ordered one way or the other. |

## Left out

- JSON encoding of replies and the `get_info` schemas: replies are datatypes, and error messages are `Error` constructors. `InvalidArgument` names the offending argument instead of carrying the message text.
- Identifiers are natural numbers. The source stores string keys but compares record fields with the caller's arguments, which may be strings or integers. The model assumes a single representation, so a comparison that Python would fail on a `"3"` versus `3` mismatch succeeds here.
- An optional argument that the source tests by truthiness (`if filter_x and ...`, `color or "#007acc"`) is `None` / not `Given` when it is `None` or empty. A key equal to the string `"0"` is not treated specially. `root_page_id` is not tested this way; see `ReadPageHierarchy.Spec` below.
- Dictionary iteration order: every scan and every reply list follows ascending key order. This equals Python's insertion order whenever rows were inserted with `generate_id`.
- The update loops mutate the record objects that are also appended to the reply. The model copies the table into a local map and writes it back after the loop, and the reply lists the updated values. Object identity and aliasing are not modelled.
- Records are always complete. Missing fields, `.get` defaults and the exceptions malformed records would raise (a `KeyError`, or `None` in a title sort) are not modelled. The optional reference fields (`parent_page_id`, `parent_comment_id`, a grant's `user_id`/`group_id`, `read_at`, `last_checked_at`, a template's `space_id`, a label's or group's `description`) are `Option`s.
- `str.lower()` is modelled on ASCII letters only. Python's `<` on strings is modelled as code-point lexicographic order (`Base.Before`).
- Default argument values (`group_type="custom"`, `mark_all_read=False`, `force_delete=False`, `max_depth=None`) are passed explicitly by the caller. `notification_ids` is a sequence, and its `None` is the empty sequence.
- MarkNotificationsRead.Spec: the marked count is an `int` rather than a `nat`; it is a list length, and `CountIsUnreadRequested` states its value.
- ReadPageHierarchy.Spec: `root` is either `None` (top-level pages) or a page ID. The source compares `parent_page_id` with `root_page_id` by equality, so `root_page_id=""` selects the pages whose parent is `""`, normally none, and replies with an empty hierarchy. That argument has no counterpart here; it is not the same as `None`.
- ReadPageHierarchy.BuildHierarchy: the recursion carries `|pages| + 1` levels of fuel. On a cyclic `parent_page_id` chain Python recurses until a `RecursionError`; the model stops at that depth and returns the truncated tree.
- ReadPageHierarchy.SortByTitleSorted: states that the title sort is sorted and a permutation. It does not state its stability (ties keep key order), although `InsertByTitle` is written to be stable.
- DeleteUserGroup.GroupWithGrantSurvives: states survival for a group holding a page grant. The space-grant case is covered by `SucceedsExactlyWhen`.
- The tool base class, the environment that registers the tools, the benchmark scenarios and data, and the other interfaces are not part of this model.
