/** The in-memory wiki store: one table per entity, each mapping an ID to a flat record,
    and the replies the tool handlers give. Records keep the fields the handlers read
    or write. */
module Model {
  import opened Base

  datatype User = User(role: string, status: string, email: string, timezone: string, updatedAt: string)

  datatype Space = Space(
    name: string, spaceType: string, status: string, createdBy: Id,
    anonymousAccess: bool, updatedAt: string)

  datatype Page = Page(
    spaceId: Id, parentPageId: Option<Id>, title: string, status: string, contentFormat: string,
    templateId: Option<Id>, createdBy: Id, createdAt: string, updatedAt: string)

  datatype Comment = Comment(
    pageId: Id, parentCommentId: Option<Id>, createdBy: Id, status: string, updatedAt: string)

  datatype Label = Label(
    name: string, color: string, description: Option<string>, spaceId: Id, createdBy: Id,
    usageCount: nat, createdAt: string)

  datatype Group = Group(
    name: string, description: Option<string>, groupType: string, createdBy: Id,
    memberCount: nat, createdAt: string)

  /** A row of `user_groups`. */
  datatype Membership = Membership(userId: Id, groupId: Id, addedBy: Id, addedAt: string)

  /** A row of `page_permissions` (target = page_id) or of `space_permissions`
      (target = space_id). A well-formed grant names exactly one principal. */
  datatype Grant = Grant(
    target: Id, userId: Option<Id>, groupId: Option<Id>, permissionType: string,
    grantedBy: Id, grantedAt: string)

  datatype Notification = Notification(
    userId: Id, notificationType: string, title: string, message: Option<string>,
    targetType: Option<string>, targetId: Option<Id>, isRead: bool, readAt: Option<string>,
    deliveryMethod: string, emailSent: bool, createdAt: string, createdBy: Id)

  datatype Watcher = Watcher(
    userId: Id, targetType: string, targetId: Id, watchType: string, notificationsEnabled: bool)

  /** A row of `page_templates`; global templates may have no space. */
  datatype Template = Template(
    spaceId: Option<Id>, isGlobal: bool, category: string, description: string,
    createdBy: Id, updatedAt: string)

  /** A row of `page_links`. */
  datatype Link = Link(sourcePageId: Id, linkType: string, isBroken: bool, lastCheckedAt: Option<string>)

  datatype Attachment = Attachment(pageId: Id, uploadedBy: Id, mimeType: string, filename: string)

  /** The whole store as a value. */
  datatype Db = Db(
    users: map<Id, User>,
    spaces: map<Id, Space>,
    pages: map<Id, Page>,
    comments: map<Id, Comment>,
    labels: map<Id, Label>,
    groups: map<Id, Group>,
    userGroups: map<Id, Membership>,
    pagePermissions: map<Id, Grant>,
    spacePermissions: map<Id, Grant>,
    notifications: map<Id, Notification>,
    watchers: map<Id, Watcher>,
    pageTemplates: map<Id, Template>,
    pageLinks: map<Id, Link>,
    attachments: map<Id, Attachment>)

  /** The store shared by reference by every handler; each handler updates its tables in place. */
  class Store {
    var users: map<Id, User>
    var spaces: map<Id, Space>
    var pages: map<Id, Page>
    var comments: map<Id, Comment>
    var labels: map<Id, Label>
    var groups: map<Id, Group>
    var userGroups: map<Id, Membership>
    var pagePermissions: map<Id, Grant>
    var spacePermissions: map<Id, Grant>
    var notifications: map<Id, Notification>
    var watchers: map<Id, Watcher>
    var pageTemplates: map<Id, Template>
    var pageLinks: map<Id, Link>
    var attachments: map<Id, Attachment>

    /** The store is supplied from outside, already loaded. */
    constructor (db: Db)
      ensures State() == db
    {
      users, spaces, pages, comments, labels := db.users, db.spaces, db.pages, db.comments, db.labels;
      groups, userGroups := db.groups, db.userGroups;
      pagePermissions, spacePermissions := db.pagePermissions, db.spacePermissions;
      notifications, watchers, pageTemplates := db.notifications, db.watchers, db.pageTemplates;
      pageLinks, attachments := db.pageLinks, db.attachments;
    }

    function State(): Db
      reads this
    {
      Db(users, spaces, pages, comments, labels, groups, userGroups, pagePermissions,
         spacePermissions, notifications, watchers, pageTemplates, pageLinks, attachments)
    }
  }

  // ---------------------------------------------------------------------------
  // Replies
  // ---------------------------------------------------------------------------

  /** The error payloads, one per distinct message. */
  datatype Error =
    | RequesterNotFound
    | TargetUserNotFound
    | TargetGroupNotFound
    | PageNotFound
    | SpaceNotFound
    | GroupNotFound
    | CommentNotFound
    | PermissionNotFound
    | InvalidArgument(parameter: Parameter) // an enum-typed argument outside its allowed values
    | MissingPrincipal                     // neither target_user_id nor target_group_id
    | BothPrincipals                       // both target_user_id and target_group_id
    | NothingToMark                        // neither notification_ids nor mark_all_read
    | Unauthorized
    | PermissionExists
    | LabelExists(name: string)
    | GroupExists(name: string)
    | AlreadyMember
    | NotMember
    | HasReplies
    | SystemGroup
    | GroupHasPermissions
    | HasActivePages(count: nat)

  /** The enum-typed arguments whose value the handlers validate. */
  datatype Parameter =
    | PermissionType | PermissionTable | NotificationType | TargetType | GroupType
    | FilterStatus | FilterCurrentStatus | FilterLinkType | FilterTargetType | FilterType
    | FilterRole | FilterCurrentRole | FilterDeliveryMethod
    | UpdateStatus | UpdateContentFormat | NewStatus | NewRole | NewWatchType | NewDeliveryMethod

  datatype Result<T> = Ok(value: T) | Err(error: Error)

  /** A handler's reply together with the store it leaves behind. */
  datatype Outcome<T> = Outcome(reply: Result<T>, db: Db)

  function Fail<T>(db: Db, e: Error): Outcome<T>
  {
    Outcome(Err(e), db)
  }

  // ---------------------------------------------------------------------------
  // Roles and enumerations
  // ---------------------------------------------------------------------------

  const PlatformOwner: string := "PlatformOwner"
  const WikiProgramManager: string := "WikiProgramManager"

  const Roles: set<string> := {"PlatformOwner", "WikiProgramManager", "User"}
  const UserStatuses: set<string> := {"active", "inactive", "suspended"}
  const SpaceTypes: set<string> := {"global", "personal", "private"}
  const SpaceStatuses: set<string> := {"current", "archived"}
  const PageStatuses: set<string> := {"current", "draft", "deleted", "historical"}
  const ContentFormats: set<string> := {"wiki", "markdown", "html"}
  const CommentStatuses: set<string> := {"active", "deleted", "resolved"}
  const PageGrantTypes: set<string> := {"view", "edit", "admin"}
  const SpaceGrantTypes: set<string> := {"view", "contribute", "moderate"}
  const GroupTypes: set<string> := {"system", "custom"}
  const LinkTypes: set<string> := {"internal", "external"}
  const WatchTargetTypes: set<string> := {"space", "page", "user"}
  const WatchTypes: set<string> := {"watching", "not_watching"}
  const DeliveryMethods: set<string> := {"web", "email", "both"}
  const NotificationTargetTypes: set<string> := {"space", "page", "comment"}
  const NotificationTypes: set<string> := {
    "page_created", "page_updated", "page_deleted", "comment_added", "comment_replied",
    "comment_resolved", "attachment_uploaded", "attachment_updated", "attachment_deleted",
    "label_added", "label_removed", "space_created", "space_updated", "space_archived",
    "space_member_added", "space_member_removed", "user_mentioned", "permission_granted",
    "permission_revoked"}

  /** `users[u].get("role") in roles`, for an existing user. */
  predicate HasRole(users: map<Id, User>, u: Id, roles: set<string>)
  {
    u in users && users[u].role in roles
  }

  predicate IsOwner(users: map<Id, User>, u: Id)
  {
    HasRole(users, u, {PlatformOwner})
  }

  predicate IsManager(users: map<Id, User>, u: Id)
  {
    HasRole(users, u, {PlatformOwner, WikiProgramManager})
  }
}
