# albumy, modelled in Dafny

albumy is a Flask photo-sharing site. Users register, confirm their e-mail address, upload photos, tag and describe them,
comment on them, collect other users' photos, follow each other and receive notifications. A role (Locked, User,
Moderator, Administrator) grants a set of permissions (FOLLOW, COLLECT, COMMENT, UPLOAD, MODERATE, ADMINISTER).

This project models the request handlers that change that data, the decorators in front of them, the role and permission
seeding, the token check behind e-mail confirmation, password reset and change of e-mail, the notification helpers, and
the declared rules of the WTForms forms. It then proves what these handlers promise: which responses leave the
database alone, exactly which rows a successful request changes, that the database stays consistent, and how the
operations relate to one another (toggling twice, follow then unfollow, next then previous, seeding twice).

The database is a class `Models.Db` with one field per table:

- users, roles and permissions;
- photos, tags and comments;
- the follow and collect edge sets;
- notifications.

`Snapshot()` reads the whole database as a value of type `Tables`. `ValidTables` is its consistency invariant:

- role names are unique, and every role refers only to known permissions;
- usernames and e-mail addresses are unique;
- every photo, comment, edge and notification refers only to existing rows;
- tag names are unique, and a photo's tag list has no repeats.

Each view has three parts:

- a specification function `XSpec(t, current user, inputs)`. It returns the HTTP outcome (`Http.Response`) and the new
  tables.
- an imperative `method` that changes the `Db` object step by step and is proved equal to that function.
- lemmas about the function. These state what the request does and that it preserves `ValidTables`.

The logged-in user is a `Principal`: `Guest` (the anonymous user of `albumy/extensions.py`) or `Member(id)`. An
exception that escapes a view is `ServerError(fault)`, that is, HTTP 500.

Modules:

| module | models |
|---|---|
| `Base` | `Option`, `Result`, the Python exceptions, smallest/largest key, the id a new row gets |
| `Text` | `str.split()`, `os.path.splitext`, `str.lower()` on ASCII, `endswith` |
| `Http` | endpoints, rendered pages and responses |
| `Models` | the entities, the table snapshot and its invariant, `User.can`, `User.is_admin`, `User.set_role`, `Role.init_role`, `User.init_role_permission` |
| `Decorators` | `login_required`, `confirm_required`, `permission_required`, `admin_required` |
| `Notifications` | `push_follow_notification`, `push_comment_notification`, `push_collect_notification` and the message text |
| `Validators`, `FormsAuth`, `FormsUser`, `FormsMain` | WTForms validator chains and each form's fields |
| `Utils` | `generate_token`, `validate_token`, `rename_image`, the name rule of `resize_image`, `redirect_back` |
| `MainViews`, `MainTags`, `MainComments` | the `main` blueprint |
| `UserViews` | the `user` blueprint |
| `AjaxViews` | the `ajax` blueprint |

The source leans on several things it never declares:

- `albumy/models.py` declares only User, Role, Permission and Photo.
- The columns for flags, comments, tags, follows, collects, notifications and the notification settings are used by the
  handlers but are not declared. The model declares them abstractly: edges as sets, a photo's tags as a sequence, a new
  comment's flag starting at 0.
- `follow`, `collect` and their inverses are assumed to commit their edge before the view goes on.
- `delete_photo` is assumed to cascade to the photo's comments and collect edges.
- `followers_count` subtracts 1 as though every user followed themself. Nothing in the source creates that self-follow,
  so the model reports -1 for a user nobody follows (`AjaxViews.FollowersCountNegative`).

## Model

| member | source | states |
|---|---|---|
| Base.MinOf | albumy/blueprints/main.py:105 | `order_by(id.asc()).first()`: an element of the set no larger than any other |
| Base.MaxOf | albumy/blueprints/main.py:116 | `order_by(id.desc()).first()`: an element of the set no smaller than any other |
| Base.FreshId | albumy/models.py:124 | the key a new row receives is unused, positive and above every existing key |
| Text.Split | albumy/blueprints/main.py:233 | every piece `str.split()` yields is a non-empty run without whitespace |
| Text.WordLength | albumy/blueprints/main.py:233 | the first word of a non-blank string is non-empty, whitespace-free and followed by whitespace or the end |
| Text.SplitKeepsNonSpace | albumy/blueprints/main.py:233 | the words of `split()` concatenated are the input with its whitespace removed |
| Text.SplitBlank | albumy/blueprints/main.py:232-233 | a blank input splits into no words |
| Text.SplitWordsOccur | albumy/blueprints/main.py:233 | every word of the split occurs in the input |
| Text.NonSpaceOfWord | albumy/blueprints/main.py:233 | removing whitespace from a word leaves it unchanged |
| Text.NonSpaceAppend | albumy/blueprints/main.py:233 | removing whitespace distributes over concatenation |
| Text.RFind | albumy/utils.py:56 | `rfind`: -1 iff the character is absent, else its last position |
| Text.SplitExt | albumy/utils.py:56 | `os.path.splitext`: root plus extension is the path; the extension is empty or one dot with no further dot or slash |
| Text.SplitExtInsert | albumy/utils.py:63-71 | text inserted between root and extension keeps the extension and extends the root |
| Text.SplitExtNewStem | albumy/utils.py:56-58 | a new stem followed by a path's extension has that extension |
| Text.Lower | albumy/forms/auth.py:20 | `lower()` keeps the length |
| Text.LowerAt | albumy/forms/auth.py:20 | `lower()` maps each character on its own |
| Text.LowerAppend | albumy/forms/auth.py:20 | `lower()` distributes over concatenation |
| Validators.ChainWithoutOptional | albumy/forms/auth.py:10-16 | a validator chain without `Optional` passes iff every validator passes |
| Validators.OptionalFirst | albumy/forms/main.py:8 | a chain headed by `Optional()` passes on blank data, else iff the rest passes |
| Validators.Chain1 | albumy/forms/auth.py:44 | a one-validator chain passes iff that validator passes |
| Validators.Chain2 | albumy/forms/auth.py:10 | a two-validator chain passes iff both validators pass |
| Validators.Chain3 | albumy/forms/auth.py:15 | a three-validator chain passes iff all three pass |
| Validators.Chain4 | albumy/forms/user.py:13-17 | a four-validator chain passes iff all four pass |
| Validators.OptionalChain1 | albumy/forms/user.py:19 | `Optional` with one more validator: blank, or that validator passes |
| Validators.OptionalChain2 | albumy/forms/user.py:18 | `Optional` with two more validators: blank, or both pass |
| Validators.AlnumRegexpShape | albumy/forms/auth.py:13 | `re.match('^[a-zA-Z0-9]*$')` accepts exactly the alphanumeric strings, each with or without one trailing newline |
| Validators.AlnumRegexpAcceptsNewline | albumy/forms/auth.py:13 | "bob\n" matches the pattern though it is not alphanumeric |
| Validators.AlnumOnlyIsRegexpWithoutNewline | albumy/forms/auth.py:13 | the intended rule is the regexp match without a final newline, and then no newline at all |
| FormsAuth.RegisterValid | albumy/forms/auth.py:9-25 | `RegisterForm` validates: every field's chain and both in-use checks pass; the `Register...Rule` lemmas state each field |
| FormsAuth.RegisterNameRule | albumy/forms/auth.py:10 | a name is valid iff it is 1 to 30 characters and not blank |
| FormsAuth.RegisterUsernameRule | albumy/forms/auth.py:12-25 | a username is valid iff it is 1 to 20 characters, matches the regexp, is not a lone newline and is not taken |
| FormsAuth.RegisterUsernameShape | albumy/forms/auth.py:12-14 | a valid username is alphanumeric, possibly followed by one newline |
| FormsAuth.RegisterPasswordRule | albumy/forms/auth.py:15-16 | the password is valid iff both fields are 8 to 128 characters, not blank, and equal |
| FormsAuth.RegisterEmailRule | albumy/forms/auth.py:11-21 | the e-mail address is valid iff it is not blank, well formed, and its lower-cased form is not registered |
| FormsAuth.UniquenessCaseRule | albumy/forms/auth.py:19-25 | the e-mail address is lower-cased before an exact lookup and the username is looked up as typed: "B@x" is refused when "b@x" is stored, and the username "B" passes when only "b" is taken |
| FormsAuth.EmailLookupLowerCased | albumy/forms/auth.py:19-21 | any address whose lower-cased form is stored is refused |
| FormsAuth.StoredUpperCaseDoesNotBlock | albumy/forms/auth.py:19-21 | only the input is lower-cased, so a stored address that is not in lower case does not block the same address typed again |
| FormsAuth.LoginValid | albumy/forms/auth.py:28-32 | `LoginForm` validates; `LoginRule` states it |
| FormsAuth.LoginRule | albumy/forms/auth.py:28-32 | login validates iff the e-mail address is 1 to 254 characters, not blank and well formed, and the password is 8 to 128 characters |
| FormsAuth.ResetPasswordValid | albumy/forms/auth.py:40-45 | `ResetPasswordForm` validates; `ResetPasswordRule` states it |
| FormsAuth.ResetPasswordRule | albumy/forms/auth.py:40-45 | reset validates iff the e-mail rule holds, the password is 8 to 128 characters and equals a non-blank confirmation |
| FormsMain.DescriptionValid | albumy/forms/main.py:8 | the description field validates; `DescriptionRule` states it |
| FormsMain.DescriptionRule | albumy/forms/main.py:8 | a description is valid iff it is blank or at most 500 characters |
| FormsMain.TagValid | albumy/forms/main.py:14 | the tag field validates; `TagRule` states it |
| FormsMain.TagRule | albumy/forms/main.py:14 | a tag input is valid iff it is blank or at most 64 characters; the empty input is valid |
| FormsMain.CommentValid | albumy/forms/main.py:19 | the comment field validates; `CommentRule` states it |
| FormsMain.CommentRule | albumy/forms/main.py:19 | a comment is valid iff it is 1 to 128 characters and not blank |
| FormsUser.EditProfileValid | albumy/forms/user.py:11-25 | `EditProfileForm` validates; `EditProfileUsernameRule`, `EditProfileOwnUsername` and `EditProfileOptionalFields` state it |
| FormsUser.EditProfileUsernameRule | albumy/forms/user.py:13-25 | the profile username follows the registration rule, except that one's own current username is never taken |
| FormsUser.EditProfileOwnUsername | albumy/forms/user.py:23-25 | keeping one's own username passes whenever it meets the length and character rules, even when it is stored for the current user; another user's username fails |
| FormsUser.EditProfileOptionalFields | albumy/forms/user.py:12-20 | the profile is valid iff the name is 1 to 30 characters and not blank, the username is valid, and website, location and bio are blank or within 255 (and a URL), 50 and 120 characters |
| FormsUser.AvatarAllowed | albumy/forms/user.py:29-31 | `FileRequired` then `FileAllowed(['jpg', 'png '])` as declared; `AvatarRefusesPng` shows what it refuses |
| FormsUser.AvatarRefusesPng | albumy/forms/user.py:31 | "a.png" is refused while "a.jpg" and "a.PNG " pass |
| FormsUser.AvatarAllowedFixed | albumy/forms/user.py:29-31 | the same check with the extension list spelled 'jpg' and 'png'; `AvatarAllowedFixedRule` states it |
| FormsUser.AvatarAllowedFixedRule | albumy/forms/user.py:31 | with 'png' spelled without the space, '.png' and '.PNG' files pass, and the as-written rule refuses them |
| FormsUser.LowerEndsWith | albumy/forms/user.py:31 | a lower-cased file name ends with its lower-cased extension |
| FormsUser.ChangePasswordValid | albumy/forms/user.py:43-46 | `ChangePasswordForm` validates; `ChangePasswordRule` states it |
| FormsUser.ChangePasswordRule | albumy/forms/user.py:43-46 | valid iff old and new passwords are 8 to 128 characters, not blank, and the new one equals a non-blank confirmation |
| FormsUser.ChangeEmailValid | albumy/forms/user.py:49-55 | `ChangeEmailForm` validates; `ChangeEmailRule` and `EmailChain` state it |
| FormsUser.ChangeEmailRule | albumy/forms/user.py:49-55 | valid iff the new address is 1 to 254 characters, not blank, well formed and unused in lower case |
| FormsUser.EmailChain | albumy/forms/user.py:50 | the e-mail validator chain passes iff each of its checks passes |
| FormsUser.DeleteAccountValid | albumy/forms/user.py:69-76 | `DeleteAccountForm` validates; `DeleteAccountRule` states it |
| FormsUser.DeleteAccountRule | albumy/forms/user.py:69-76 | the typed username validates iff it equals the current username exactly |
| Models.Can | albumy/models.py:66-70 | `User.can`: the permission exists, the user has a role, and the role holds it; `RolelessCannot` and `CanAfterSeeding` state its meaning |
| Models.IsAdmin | albumy/models.py:72-74 | errors iff the user has no role; otherwise true iff the role is named 'Administrator' |
| Models.RolelessCannot | albumy/models.py:66-70 | a user without a role can do nothing |
| Models.SetRole | albumy/models.py:39-45 | raises TypeError (the config object is called) iff the user has no role, else changes nothing |
| Models.SeededRolesNested | albumy/models.py:94-99 | the seeded roles' permissions nest Locked < User < Moderator < Administrator; only Administrator has ADMINISTER; only Moderator and Administrator have MODERATE |
| Models.RoleOrderDistinct | albumy/models.py:94-100 | the roles are seeded in a repeat-free order that covers the map |
| Models.FindRole | albumy/models.py:101 | `Role.query.filter_by(name=).first()`: the first role of that name, or None iff there is none |
| Models.AddMissing | albumy/models.py:107-111 | the permission table after the inner loop of `init_role` creates each missing permission; `AddMissingBounds`, `AddMissingStep`, `AddMissingDistinct` and `AddMissingPresent` state it |
| Models.AddMissingBounds | albumy/models.py:107-111 | permissions are only appended, every named permission ends up present, and nothing else is added |
| Models.AddMissingStep | albumy/models.py:107-111 | one turn of the permission loop: a missing name is appended, a present one leaves the table as it is, and the rest of the names follow |
| Models.AddMissingDistinct | albumy/models.py:107-111 | appending the missing permissions keeps the permission table free of repeats |
| Models.AddMissingPresent | albumy/models.py:108-111 | when every permission exists, the table is unchanged |
| Models.FindRoleAt | albumy/models.py:101 | a role found by name is at its index when names are unique |
| Models.SeedRoles | albumy/models.py:101-105 | the role table after finding or creating one role and setting its permission names from the map; `SeedRolesEffect` states it |
| Models.SeedRole | albumy/models.py:101-112 | one iteration of the outer loop of `init_role`, on the role and permission tables; `SeedRoleEffect` and `SeedRoleKeeps` state it |
| Models.SeedNames | albumy/models.py:100-112 | the outer loop of `init_role` over a list of role names, in order; `SeedNamesEffect` and `SeedNamesSeeded` state it |
| Models.SeedRolesEffect | albumy/models.py:101-104 | seeding a role name creates the role only when it is missing and keeps the other roles |
| Models.SeedRoleEffect | albumy/models.py:101-112 | after one seeding step the role exists with exactly its mapped permissions, and the database stays consistent |
| Models.SeedRoleKeeps | albumy/models.py:100-112 | seeding a role of the map leaves every role already seeded still seeded, whether it is the same role or another |
| Models.SeedNamesEffect | albumy/models.py:100-112 | seeding a list of roles keeps the role tables consistent, only extends them, keeps the roles already seeded seeded and seeds every listed role |
| Models.InitRoleSpec | albumy/models.py:93-113 | `init_role`: the outer loop over the four role names in the map's order; `InitRoleSeedsMap`, `InitRoleKeeps` and `InitRoleIdempotent` state it |
| Models.InitRoleSeedsMap | albumy/models.py:93-113 | after `init_role` each of the four roles exists once with exactly its mapped permissions |
| Models.InitRoleKeeps | albumy/models.py:93-113 | `init_role` keeps the database consistent and never drops a role, permission or user |
| Models.SeedNamesSeeded | albumy/models.py:100-113 | seeding roles that are already seeded changes nothing |
| Models.InitRoleIdempotent | albumy/models.py:93-113 | running `init_role` twice equals running it once |
| Models.CanAfterSeeding | albumy/models.py:66-99 | after seeding, a user with a role can p iff p is in that role's map entry |
| Models.ValidWithUsers | albumy/models.py:57-64 | replacing the user rows with rows that keep usernames and e-mail addresses and point to existing roles keeps the database consistent |
| Models.SetUser | albumy/blueprints/user.py:96-101 | writing a user row changes only that row |
| Models.ValidSetUser | albumy/blueprints/user.py:96-101 | a user row that keeps usernames and e-mail addresses unique and points to an existing role keeps the database consistent |
| Models.SetPhoto | albumy/blueprints/main.py:132-133 | writing a photo row changes only that row |
| Models.ValidSetPhoto | albumy/blueprints/main.py:132-133 | a photo row with an existing author and a valid tag list keeps the database consistent |
| Models.SetComment | albumy/blueprints/main.py:317-318 | writing a comment row changes only that row |
| Models.ValidSetComment | albumy/blueprints/main.py:317-318 | a comment row with an existing author and photo keeps the database consistent |
| Models.SetNotification | albumy/blueprints/main.py:356-357 | writing a notification row changes only that row |
| Models.ValidSetNotification | albumy/blueprints/main.py:356-357 | a notification row with an existing receiver keeps the database consistent |
| Models.AssignUsers | albumy/models.py:57-63 | the loop over all users yields exactly the user table that `AssignRoles` specifies |
| Models.AssignRolesValid | albumy/models.py:56-64 | `init_role_permission` keeps the database consistent |
| Models.AssignRolesUsers | albumy/models.py:57-63 | it keeps every username and e-mail address and assigns only existing roles |
| Models.DefaultRole | albumy/models.py:58-62 | the role one user gets from `init_role_permission`; `DefaultRoleShape` and `AssignRolesRule` state it |
| Models.AssignRoles | albumy/models.py:56-63 | `init_role_permission` on the user table; `AssignRolesValid`, `AssignRolesUsers` and `AssignRolesRule` state it |
| Models.DefaultRoleShape | albumy/models.py:58-62 | assigning a default role changes only the role field and points only to an existing role |
| Models.AssignRolesRule | albumy/models.py:56-64 | users who have a role keep their rows; a role-less user gets a role, Administrator iff their e-mail address is the admin address, otherwise User; only the role field and only the user table change |
| Models.Db.constructor | albumy/extensions.py:14 | a new database is empty and consistent |
| Models.Db.SeedRoleStep | albumy/models.py:101-104 | one iteration's role lookup-or-create equals `SeedRole` |
| Models.FillPermissions | albumy/models.py:105-111 | the loop over a role's permission names attaches exactly those names, in order, and leaves the permission table as the missing ones appended |
| Models.Db.Refill | albumy/models.py:105-112 | resetting a role's permissions and refilling them from the map, creating missing permissions |
| Models.Db.InitRole | albumy/models.py:93-113 | the imperative `init_role` equals `InitRoleSpec` and keeps the database consistent |
| Models.Db.InitRolePermission | albumy/models.py:56-64 | the imperative `init_role_permission` equals `AssignRoles` and keeps the database consistent |
| Decorators.CurrentIsAdmin | albumy/extensions.py:42-44 | the Guest is never an administrator; a member is as `User.is_admin` says |
| Decorators.CurrentCan | albumy/extensions.py:38-40 | `current_user.can(p)`: False for the Guest, `User.can` for a member; `GuestCannot` states the Guest case |
| Decorators.GuestCannot | albumy/extensions.py:38-44 | the Guest can do nothing and is not an administrator |
| Decorators.Guarded | albumy/decorators.py:12-22 | a decorator either answers in the view's place or lets the view's answer through |
| Decorators.Then | albumy/decorators.py:31-34 | stacked decorators let the view run iff both let it run, the outer answering first |
| Decorators.LoginRequired | albumy/blueprints/main.py:124 | halts iff the user is the Guest, with a redirect to the login page |
| Decorators.AdminRequired | albumy/decorators.py:42-43 | halts with 403 iff the user cannot ADMINISTER |
| Decorators.ConfirmRequired | albumy/decorators.py:10-24 | `confirm_required`: an unconfirmed member goes to the index, and the Guest has no `confirmed` attribute; `ConfirmBlocks` and `ConfirmTransparent` state it |
| Decorators.ConfirmBlocks | albumy/decorators.py:13-21 | an unconfirmed member is redirected to the index whatever the view would do |
| Decorators.ConfirmTransparent | albumy/decorators.py:13-22 | a confirmed member gets the view's own answer |
| Decorators.PermissionRequired | albumy/decorators.py:28-38 | `permission_required(p)`: 403 unless the current user can p; `PermissionRule` states it |
| Decorators.PermissionRule | albumy/decorators.py:32-34 | the view's answer iff the user can p, else 403; the Guest always gets 403 |
| Decorators.AdminRule | albumy/decorators.py:42-43 | `admin_required` is `permission_required('ADMINISTER')` |
| Decorators.AdminRequiredSeeded | albumy/decorators.py:42-43 | after seeding, only a member with the Administrator role passes `admin_required` |
| Notifications.Push | albumy/nitifications.py:11-13 | the tables after one new unread notification is stored for the receiver; `PushAddsOne`, `PushUnread` and `PushValid` state it |
| Notifications.PushAddsOne | albumy/nitifications.py:10-12 | a push adds exactly one unread row for the receiver with that message, keeps every row, and touches no other table |
| Notifications.AddUnread | albumy/nitifications.py:10-12 | adding a row under a fresh key raises a user's unread count by one iff the row is theirs and unread, else keeps it |
| Notifications.PushUnread | albumy/nitifications.py:10-12 | a push raises the receiver's unread count by one and leaves everyone else's |
| Notifications.PushValid | albumy/nitifications.py:10-12 | a push to an existing user keeps the database consistent |
| Notifications.FollowMessageNamesFollower | albumy/nitifications.py:8-9 | the follow message contains the follower's username and a link to their page |
| Notifications.CommentMessageLinksPhoto | albumy/nitifications.py:16-17 | the comment message links the photo at the given page |
| Notifications.CollectMessageNamesBoth | albumy/nitifications.py:24-26 | the collect message names the collector and links the photo |
| Notifications.PushFollowNotification | albumy/nitifications.py:7-12 | stores one follow message for the receiver |
| Notifications.PushCommentNotification | albumy/nitifications.py:15-20 | stores one comment message for the receiver, page 1 by default |
| Notifications.PushCollectNotification | albumy/nitifications.py:23-29 | stores one collect message for the receiver |
| Utils.TokenPayload | albumy/utils.py:20-24 | the payload holds the id and operation plus the extra keys; an `id` keyword argument overrides the id, and no keyword argument may be named `operation` since it is a named parameter |
| Utils.GeneratedTokenMatches | albumy/utils.py:20-34 | a token generated for a user and operation passes the id and operation check for exactly that pair |
| Utils.TokenOutcome | albumy/utils.py:27-52 | what `validate_token` answers and the user row it writes, if any; `TokenRefusedUnchanged`, `TokenAcceptedEffect`, `ChangeEmailRule` and `TokenRowShape` state it |
| Utils.ValidateTokenSpec | albumy/utils.py:27-52 | `validate_token` on the tables; `TokenRefusedUnchanged`, `TokenAcceptedEffect`, `ChangeEmailRule` and `ValidateTokenValid` state it |
| Utils.TokenRefusedUnchanged | albumy/utils.py:29-35 | a failed decode, or a wrong operation or id, gives False and changes nothing |
| Utils.TokenAcceptedEffect | albumy/utils.py:37-52 | on a matching payload CONFIRM sets confirmed, RESET_PASSWORD sets the password (TypeError without one), and an unknown operation gives False |
| Utils.ChangeEmailRule | albumy/utils.py:41-47 | CHANGE_EMAIL gives False, with nothing changed, when `new_email` is missing, null or taken; a string address not in use is set as exactly that user's e-mail address (a non-string value is refused, see below) |
| Utils.TokenRowShape | albumy/utils.py:37-47 | the only row the check writes is the user's own, keeping username and role and a unique e-mail address |
| Utils.ValidateTokenValid | albumy/utils.py:27-52 | the token check keeps the database consistent |
| Utils.ValidateToken | albumy/utils.py:27-52 | the imperative `validate_token` equals `ValidateTokenSpec` |
| Utils.RenameImage | albumy/utils.py:55-59 | the new name starts with the 32 hex digits of the uuid |
| Utils.RenameKeepsExtension | albumy/utils.py:55-59 | the new name keeps the old extension |
| Utils.ResizedName | albumy/utils.py:62-73 | an image no wider than the base keeps its name; a wider one errors iff the width has no suffix |
| Utils.ResizeKeepsExtension | albumy/utils.py:63-71 | the resized name is root, suffix, extension, and keeps the extension |
| Utils.FirstSafe | albumy/utils.py:84-88 | the first candidate present, non-empty and safe; all before it fail |
| Utils.BackTarget | albumy/utils.py:83-89 | the target is the default or a safe non-empty candidate: `next`, else the referrer |
| Utils.RedirectBack | albumy/utils.py:83-89 | the loop over next and the referrer redirects to `next` if it is safe, else to a safe referrer, else to the default |
| MainViews.OwnerGate | albumy/blueprints/main.py:126-128 | passes only for an existing photo |
| MainViews.EditGate | albumy/blueprints/main.py:124-128 | passes only for a member and an existing photo |
| MainViews.EditGateRule | albumy/blueprints/main.py:126-128 | a member passes iff the photo exists and they wrote it or can MODERATE; 404 for a missing photo, 403 for someone else's |
| MainViews.EditGateGuest | albumy/blueprints/main.py:124 | the Guest is sent to login before any lookup |
| MainViews.EditDescriptionSpec | albumy/blueprints/main.py:123-136 | `edit_description`: the gate, then the description written when the form validates; `EditGateRule` and `EditDescriptionValid` state it |
| MainViews.EditDescriptionValid | albumy/blueprints/main.py:131-133 | editing a description keeps the database consistent |
| MainViews.EditDescription | albumy/blueprints/main.py:123-136 | equals `EditDescriptionSpec`: after the gate, a valid description replaces the photo's, an invalid one changes nothing, and the page redirects to the photo |
| MainViews.SetCommentSpec | albumy/blueprints/main.py:139-153 | `set_comment`: the gate, then `can_comment` negated; `SetCommentTwice` and `SetCommentValid` state it |
| MainViews.SetCommentValid | albumy/blueprints/main.py:146-152 | toggling comments keeps the database consistent |
| MainViews.SetComment | albumy/blueprints/main.py:139-153 | equals `SetCommentSpec`: after the gate the photo's `can_comment` is negated |
| MainViews.SetCommentTwice | albumy/blueprints/main.py:146-151 | one toggle flips only that photo's flag, and two toggles restore the tables |
| MainViews.ReportPhotoSpec | albumy/blueprints/main.py:156-164 | a confirmed member always gets a 500 since `git_or_404` does not exist; nothing changes |
| MainViews.CollectGate | albumy/blueprints/main.py:168-170 | passes only for a member |
| MainViews.NotifiesCollect | albumy/blueprints/main.py:178 | a collect notifies the author when it is someone else and the author wants collect notifications |
| MainViews.CollectSpec | albumy/blueprints/main.py:167-180 | `collect` as written, with the `recipient=` TypeError after the commit; `CollectKeywordFails` and `CollectValid` state it |
| MainViews.CollectFixedSpec | albumy/blueprints/main.py:167-180 | `collect` with the notification call corrected; `CollectAgain`, `CollectNew` and `CollectFixedValid` state it |
| MainViews.AddCollect | albumy/blueprints/main.py:176 | the collect edge is present afterwards and only the collect table changes |
| MainViews.AddCollectValid | albumy/blueprints/main.py:176 | an edge between an existing user and photo keeps the database consistent |
| MainViews.CollectValid | albumy/blueprints/main.py:167-180 | `collect` as written keeps the database consistent |
| MainViews.CollectFixedValid | albumy/blueprints/main.py:167-180 | the corrected `collect` keeps the database consistent |
| MainViews.CollectAgain | albumy/blueprints/main.py:173-175 | collecting an already collected photo changes nothing and redirects to it |
| MainViews.CollectNew | albumy/blueprints/main.py:176-179 | a first collect adds exactly one edge; the author gets one notification iff it is someone else who wants collect notifications |
| MainViews.CollectKeywordFails | albumy/blueprints/main.py:179 | with a notification due, the as-written view answers 500 without notifying; the corrected one redirects and notifies once |
| MainViews.Collect | albumy/blueprints/main.py:167-180 | the imperative corrected `collect` equals `CollectFixedSpec` |
| MainViews.UncollectSpec | albumy/blueprints/main.py:183-192 | `uncollect`; `UncollectEffect` and `UncollectValid` state it |
| MainViews.UncollectEffect | albumy/blueprints/main.py:187-192 | uncollect removes exactly the user's edge to the photo if present and changes nothing else |
| MainViews.UncollectValid | albumy/blueprints/main.py:183-192 | uncollect keeps the database consistent |
| MainViews.Uncollect | albumy/blueprints/main.py:183-192 | equals `UncollectSpec` |
| MainViews.NextPhoto | albumy/blueprints/main.py:105 | the author's smallest photo id above the given one, or None iff there is none |
| MainViews.PreviousPhoto | albumy/blueprints/main.py:116 | the author's largest photo id below the given one, or None iff there is none |
| MainViews.PhotoNextSpec | albumy/blueprints/main.py:101-110 | `photo_next`: the author's next photo, or the same photo at the end; `NavigationRule` and `NextThenPrevious` state it |
| MainViews.PhotoPreviousSpec | albumy/blueprints/main.py:112-120 | `photo_previous`: the author's previous photo, or the same photo at the start; `NavigationRule` and `NextThenPrevious` state it |
| MainViews.NavigationRule | albumy/blueprints/main.py:101-120 | next and previous redirect to a photo by the same author, further on and further back respectively, or to the same photo at the end |
| MainViews.NextThenPrevious | albumy/blueprints/main.py:101-120 | going to the next photo and then to the previous one returns to the start |
| MainViews.RemovePhoto | albumy/blueprints/main.py:211-212 | the photo, its comments and its collect edges are gone |
| MainViews.AfterDelete | albumy/blueprints/main.py:215-221 | redirects to the author's next photo, else the previous one, else the author's page when no photo of theirs is left |
| MainViews.RemovePhotoValid | albumy/blueprints/main.py:211-212 | removing a photo keeps the database consistent |
| MainViews.DeletePhotoSpec | albumy/blueprints/main.py:205-221 | `delete_photo`: the gate, the photo removed, and the redirect chosen by `AfterDelete`; `DeletePhotoEffect` and `DeletePhotoValid` state it |
| MainViews.DeletePhotoValid | albumy/blueprints/main.py:205-221 | `delete_photo` keeps the database consistent |
| MainViews.DeletePhotoEffect | albumy/blueprints/main.py:208-212 | after the gates the photo, its comments and collect edges are gone; other photos, users and tags are unchanged |
| MainViews.DeletePhoto | albumy/blueprints/main.py:205-221 | equals `DeletePhotoSpec` |
| MainViews.ReadNotificationSpec | albumy/blueprints/main.py:350-359 | `read_notification`; `ReadNotificationRule` and `ReadNotificationValid` state it |
| MainViews.ReadNotificationRule | albumy/blueprints/main.py:353-359 | someone else's notification is 403 with no change; one's own has only its `is_read` set, leaving the user's unread set without it |
| MainViews.ReadNotificationValid | albumy/blueprints/main.py:350-359 | reading a notification keeps the database consistent |
| MainViews.ReadNotification | albumy/blueprints/main.py:350-359 | equals `ReadNotificationSpec` |
| MainViews.ReadAll | albumy/blueprints/main.py:365-366 | the notification table with every row of the user marked read; `ReadAllEffect` states it |
| MainViews.ReadAllSpec | albumy/blueprints/main.py:362-369 | `read_all_notification`; `ReadAllEffect` and `ReadAllValid` state it |
| MainViews.ReadAllEffect | albumy/blueprints/main.py:365-367 | afterwards the user has no unread notification, nobody else's unread set changes, and no row is added, removed, readdressed or reworded |
| MainViews.ReadAllValid | albumy/blueprints/main.py:362-369 | reading all keeps the database consistent |
| MainViews.ReadAllNotification | albumy/blueprints/main.py:362-369 | the loop over the user's notifications equals `ReadAllSpec` |
| MainViews.FeedPhotos | albumy/blueprints/main.py:22-27 | the index shows a member exactly the photos whose author they follow; the Guest gets none |
| MainTags.FindTag | albumy/blueprints/main.py:234 | a found tag has that name; None iff no tag has it |
| MainTags.AddTag | albumy/blueprints/main.py:234-239 | one turn of the `new_tag` loop: find or create the tag, and append it to the photo unless it is there; `AddTagEffect` and `AddTagGrows` state it |
| MainTags.AddTags | albumy/blueprints/main.py:233-239 | the whole `new_tag` loop over the words of the input; `AddTagsRetains`, `AddTagsKeeps`, `AddTagsCarries` and `AddTagsOnlyNames` state it |
| MainTags.AddTagEffect | albumy/blueprints/main.py:234-239 | one loop turn keeps tag names unique and the photo's list free of repeats and of unknown tags |
| MainTags.AddTagGrows | albumy/blueprints/main.py:234-239 | one loop turn loses no existing tag, keeps the photo's list as a prefix and leaves the word on the photo |
| MainTags.AddTagsRetains | albumy/blueprints/main.py:233-239 | the whole loop loses no existing tag and only appends to the photo's list |
| MainTags.AddTagsKeeps | albumy/blueprints/main.py:233-239 | the whole loop keeps tag names unique and the photo's list free of repeats and of unknown tags |
| MainTags.AddTagsCarries | albumy/blueprints/main.py:233-239 | after the loop every word of the input names a tag on the photo |
| MainTags.RetainsTransitive | albumy/blueprints/main.py:233-239 | tag rows kept across two turns are kept across both |
| MainTags.CarriesGrow | albumy/blueprints/main.py:238-239 | a name on the photo stays on it as the loop proceeds |
| MainTags.AddTagsEffect | albumy/blueprints/main.py:233-239 | after the loop every word names a tag on the photo, names stay unique, the list has no repeats, no tag is lost, and every tag attached or created is named by a word |
| MainTags.AddTagsOnlyNames | albumy/blueprints/main.py:233-239 | conversely, the loop attaches only tags named by a word of the input, and every tag row it creates is named by one |
| MainTags.TagListRetained | albumy/blueprints/main.py:234-239 | other photos' tag lists stay valid as tags are added |
| MainTags.TagPhoto | albumy/blueprints/main.py:233-240 | the tables after the loop, with the photo's new tag list; `NewTagEffect` states it |
| MainTags.NewTagSpec | albumy/blueprints/main.py:224-242 | `new_tag`: the gate, then the loop on a valid form and None (a 500) on an invalid one; `NewTagEffect`, `NewTagBlank` and `NewTagValid` state it |
| MainTags.NewTagEffect | albumy/blueprints/main.py:232-240 | after `new_tag` only the tag and photo tables change; every input word names a tag on the photo, the photo's earlier tags stay in front, no tag row is lost, names stay unique and other photos are unchanged; conversely, every tag newly attached to the photo, and every tag row created, is named by a word of the input |
| MainTags.NewTagValid | albumy/blueprints/main.py:224-242 | `new_tag` keeps the database consistent |
| MainTags.NewTagBlank | albumy/forms/main.py:14 | a blank input validates and adds no tags |
| MainTags.NewTag | albumy/blueprints/main.py:224-242 | the loop over the words equals `NewTagSpec`, whose invalid form is a 500 because the view returns nothing |
| MainTags.IndexOf | albumy/blueprints/main.py:269 | `list.index`: the first position of the element |
| MainTags.RemoveFirst | albumy/blueprints/main.py:269 | `list.remove`: one element shorter |
| MainTags.RemoveFirstDistinct | albumy/blueprints/main.py:269 | on a repeat-free list the element is gone and every other stays, still repeat-free |
| MainTags.DetachTag | albumy/blueprints/main.py:269-271 | the tag removed from the photo, and its row deleted when no photo carries it; `DeleteTagEffect` and `DetachTagValid` state it |
| MainTags.DeleteTagSpec | albumy/blueprints/main.py:262-275 | `delete_tag`: login, the two 404s, the gate, and the ValueError of `list.remove`; `DeleteTagEffect` and `DeleteTagValid` state it |
| MainTags.DeleteTagEffect | albumy/blueprints/main.py:269-271 | the photo drops the tag and keeps its other tags; the tag row is deleted iff no photo carries it any longer |
| MainTags.DetachTagValid | albumy/blueprints/main.py:269-271 | detaching a tag keeps the database consistent |
| MainTags.DeleteTagValid | albumy/blueprints/main.py:262-275 | `delete_tag` keeps the database consistent |
| MainTags.DeleteTag | albumy/blueprints/main.py:262-275 | equals `DeleteTagSpec`, including the ValueError when the tag is not on the photo |
| MainTags.ForbiddenUnchanged | albumy/blueprints/main.py:127-128 | someone who neither wrote the photo nor can MODERATE gets 403 and no change from all five editing views (the same guard opens `set_comment`, `delete_photo`, `new_tag` and `delete_tag`) |
| MainComments.ReportCommentSpec | albumy/blueprints/main.py:312-320 | `report_comment`; `ReportCommentEffect` and `ReportCommentValid` state it |
| MainComments.Flagged | albumy/blueprints/main.py:317 | the comment's flag rises by one and nothing else changes |
| MainComments.ReportCommentEffect | albumy/blueprints/main.py:312-320 | an unconfirmed user is redirected with no change; otherwise the flag rises by exactly one and the page goes to the photo |
| MainComments.FlaggedValid | albumy/blueprints/main.py:317-318 | reporting a comment keeps the database consistent |
| MainComments.ReportCommentValid | albumy/blueprints/main.py:312-320 | `report_comment` keeps the database consistent |
| MainComments.ReportComment | albumy/blueprints/main.py:312-320 | equals `ReportCommentSpec` |
| MainComments.NewCommentSpec | albumy/blueprints/main.py:278-298 | `new_comment` as written, where reading `form.body` fails on every valid form; `NewCommentBodyFails` states it |
| MainComments.NotifiesComment | albumy/blueprints/main.py:295 | a comment notifies the author when it is someone else and the author wants comment notifications |
| MainComments.NewCommentFixedSpec | albumy/blueprints/main.py:278-298 | `new_comment` reading the `comment` field; `CommentNotificationRule` and `NewCommentFixedValid` state it |
| MainComments.AddComment | albumy/blueprints/main.py:287-293 | the comment is stored under a new key and only the comment table changes |
| MainComments.AddCommentValid | albumy/blueprints/main.py:292-293 | a comment by an existing user on an existing photo keeps the database consistent |
| MainComments.NewCommentBodyFails | albumy/blueprints/main.py:285 | a valid comment answers 500 with no change as written, while the corrected view stores exactly one comment by the user on the photo |
| MainComments.CommentNotificationRule | albumy/blueprints/main.py:295-296 | a stored comment notifies the photo's author once iff the commenter is someone else and the author wants comment notifications; nobody else is notified |
| MainComments.NewCommentFixedValid | albumy/blueprints/main.py:278-298 | the corrected `new_comment` keeps the database consistent |
| MainComments.NewComment | albumy/blueprints/main.py:278-298 | the corrected `new_comment` equals `NewCommentFixedSpec`: 404 for a missing photo or reply target, a stored comment, the notification, the redirect with the page |
| UserViews.FindUser | albumy/blueprints/user.py:20 | the smallest id with that username, None iff the username is unused |
| UserViews.FindOwn | albumy/blueprints/user.py:20-21 | with unique usernames one's own username finds oneself |
| UserViews.Following | albumy/blueprints/user.py:50 | `is_following`: the follow edge is in the table |
| UserViews.IndexSpec | albumy/blueprints/user.py:18-26 | `user.index`: the 404, the locked redirect, and the logout of an inactive user on their own page; `IndexOwnPage` and `IndexOtherPage` state it |
| UserViews.IndexOwnPage | albumy/blueprints/user.py:21-26 | on one's own page: locked and not an administrator is redirected; locked without a role is a 500; otherwise the page shows and the session ends iff the user is inactive |
| UserViews.IndexOtherPage | albumy/blueprints/user.py:20-31 | another user's page always shows and never changes the session |
| UserViews.FollowGate | albumy/blueprints/user.py:45-47 | passes iff a confirmed member who can FOLLOW |
| UserViews.FollowSpec | albumy/blueprints/user.py:44-57 | `follow` as written, where the follower's own flag decides the notification; `FollowAsWrittenNew`, `FollowFlagMismatch` and `FollowSpecValid` state it |
| UserViews.FollowFixedSpec | albumy/blueprints/user.py:44-57 | `follow` with the followed user's flag deciding; `FollowAgain`, `FollowNew` and `FollowFixedValid` state it |
| UserViews.AddFollow | albumy/blueprints/user.py:53 | adds exactly the one edge and changes no other table |
| UserViews.RemoveFollow | albumy/blueprints/user.py:66 | removes exactly the one edge and changes no other table |
| UserViews.FollowAgain | albumy/blueprints/user.py:50-52 | following again changes nothing |
| UserViews.FollowNew | albumy/blueprints/user.py:53-57 | a first follow adds exactly one edge and redirects back; the followed user is notified once iff they want follow notifications |
| UserViews.FollowAsWrittenNew | albumy/blueprints/user.py:53-57 | the follow as written adds exactly one edge and redirects; the followed user gets one notification exactly when the follower's own flag is set, and nobody else's unread notifications change |
| UserViews.FollowFlagMismatch | albumy/blueprints/user.py:55-56 | a follower without the flag following a user with it: as written nobody is notified, corrected the followed user is |
| UserViews.AddFollowValid | albumy/blueprints/user.py:53 | an edge between existing users keeps the database consistent |
| UserViews.FollowFixedValid | albumy/blueprints/user.py:44-57 | the corrected `follow` keeps the database consistent |
| UserViews.FollowSpecValid | albumy/blueprints/user.py:44-57 | the follow as written keeps the database consistent |
| UserViews.FollowFeed | albumy/blueprints/user.py:53 | after a follow, the followed user's photos are in the follower's index feed |
| UserViews.Follow | albumy/blueprints/user.py:44-57 | the imperative corrected `follow` equals `FollowFixedSpec`, going back through `redirect_back` |
| UserViews.UnfollowSpec | albumy/blueprints/user.py:60-68 | `unfollow`; `UnfollowEffect`, `FollowThenUnfollow` and `UnfollowValid` state it |
| UserViews.UnfollowEffect | albumy/blueprints/user.py:63-68 | unfollow removes exactly the edge when it exists and redirects back; otherwise it renders the page with nothing changed |
| UserViews.FollowThenUnfollow | albumy/blueprints/user.py:53-66 | a follow followed by an unfollow restores every table except the notifications |
| UserViews.UnfollowValid | albumy/blueprints/user.py:60-68 | unfollow keeps the database consistent |
| UserViews.Unfollow | albumy/blueprints/user.py:60-68 | equals `UnfollowSpec`, whose Guest gets a 500 since the view has no login check |
| UserViews.Profiled | albumy/blueprints/user.py:96-100 | the five profile fields take the form's values and every other field is kept |
| UserViews.EditProfileSpec | albumy/blueprints/user.py:91-109 | `edit_profile`; `EditProfileEffect` and `EditProfileValidity` state it |
| UserViews.EditProfileEffect | albumy/blueprints/user.py:95-109 | a valid form rewrites exactly name, username, website, bio and location of the user's row; an invalid one changes nothing |
| UserViews.EditProfileValidity | albumy/blueprints/user.py:95-101 | editing the profile keeps usernames unique and the database consistent |
| UserViews.EditProfile | albumy/blueprints/user.py:91-109 | equals `EditProfileSpec` |
| UserViews.NotificationSettingSpec | albumy/blueprints/user.py:190-204 | `notification_setting`; `NotificationSettingEffect`, `FollowFlagHonoured` and `NotificationSettingValid` state it |
| UserViews.NotificationSettingEffect | albumy/blueprints/user.py:194-200 | the settings form writes exactly the three notification flags of the user's row |
| UserViews.FollowFlagHonoured | albumy/blueprints/user.py:196 | the chosen follow flag decides whether the next new follower notifies the user |
| UserViews.NotificationSettingValid | albumy/blueprints/user.py:194-198 | the notification settings keep the database consistent |
| UserViews.NotificationSettingView | albumy/blueprints/user.py:190-204 | equals `NotificationSettingSpec` |
| UserViews.PrivacySettingSpec | albumy/blueprints/user.py:207-218 | `privacy_setting`; `PrivacySettingEffect` and `PrivacySettingValid` state it |
| UserViews.PrivacySettingEffect | albumy/blueprints/user.py:211-216 | the privacy form writes only `public_collections` |
| UserViews.PrivacySettingValid | albumy/blueprints/user.py:211-214 | the privacy setting keeps the database consistent |
| UserViews.PrivacySettingView | albumy/blueprints/user.py:207-218 | equals `PrivacySettingSpec` |
| AjaxViews.AjaxFollowSpec | albumy/blueprints/ajax.py:18-33 | `ajax.follow` with its ladder of status codes; `AjaxFollowLadder`, `AjaxFollowAgreesWithPage`, `AjaxFollowNotifies` and `AjaxFollowValid` state it |
| AjaxViews.AjaxFollowLadder | albumy/blueprints/ajax.py:20-33 | 403 "Login required." for the Guest, 400 unconfirmed, 403 "Insufficient permissions." without FOLLOW, 404 for an unknown username, 400 "Already followed." for an existing edge; 200 iff all checks pass and the edge is new; only 200 changes the tables, by exactly one edge and the notifications |
| AjaxViews.AjaxFollowAgreesWithPage | albumy/blueprints/ajax.py:27-32 | the JSON follow changes the tables exactly as the corrected page follow does |
| AjaxViews.AjaxFollowNotifies | albumy/blueprints/ajax.py:31-32 | the followed user is notified once iff their flag is set |
| AjaxViews.AjaxFollowValid | albumy/blueprints/ajax.py:18-33 | the JSON follow keeps the database consistent |
| AjaxViews.AjaxFollow | albumy/blueprints/ajax.py:18-33 | equals `AjaxFollowSpec` |
| AjaxViews.AjaxUnfollowSpec | albumy/blueprints/ajax.py:36-44 | `ajax.unfollow`; `AjaxUnfollowLadder`, `AjaxFollowUnfollow` and `AjaxUnfollowValid` state it |
| AjaxViews.AjaxUnfollowLadder | albumy/blueprints/ajax.py:38-44 | 403 for the Guest, 404 for an unknown username, 400 "Not followed yet." without the edge, 200 "User unfollowed." with it; 200 iff the edge exists, and then only that edge is removed; every other answer changes nothing |
| AjaxViews.AjaxFollowUnfollow | albumy/blueprints/ajax.py:30-43 | a JSON follow undone by a JSON unfollow restores the follow graph |
| AjaxViews.AjaxUnfollowValid | albumy/blueprints/ajax.py:36-44 | the JSON unfollow keeps the database consistent |
| AjaxViews.AjaxUnfollow | albumy/blueprints/ajax.py:36-44 | equals `AjaxUnfollowSpec` |
| AjaxViews.Followers | albumy/blueprints/ajax.py:50 | exactly the users with an edge to the user |
| AjaxViews.FollowersCount | albumy/blueprints/ajax.py:47-50 | 404 iff the user is missing, else the follower count minus one |
| AjaxViews.FollowRaisesCount | albumy/blueprints/ajax.py:30-50 | a new follower raises the reported count by one and the unfollow brings it back |
| AjaxViews.FollowersCountNegative | albumy/blueprints/ajax.py:50 | a user nobody follows is reported with -1 followers |
| AjaxViews.NotificationsCount | albumy/blueprints/ajax.py:53-58 | 403 iff the Guest, else the number of the user's unread notifications |
| AjaxViews.NotificationsCountMoves | albumy/blueprints/ajax.py:57 | each push to the user raises the count by one, and reading all sets it to zero |

## Left out

- Routing, templates, flash messages and the text of generated URLs are left out. An endpoint is a value of
  `Http.Endpoint`, and a rendered page is named by `Http.Page`.
- The `page` argument becomes an integer parameter. WTForms' `validate_on_submit()` becomes the field predicates, or a
  `submitted` flag for forms without validators.
- Pagination and the list ordering by timestamp are left out. These cover the listing views (`explore`, `show_photo`,
  `show_tag`, `show_collectors`, the followers and following lists, `show_notifications`) and the random photo choice.
  `MainViews.FeedPhotos` gives the feed as a set.
- The tag popularity ranking and the whoosh full-text `search` are left out: they are query-library behaviour.
- Uploads, image resizing and the after-delete file removal are left out: they are file I/O and PIL.
  `Utils.ResizedName` keeps only the file-name rule, with the image width as a parameter.
- `upload_avatar`, `crop_avatar` and Identicon avatars are left out for the same reason.
- `uuid4` becomes a parameter (`hex`) of `Utils.RenameImage`, since it is randomness.
- The itsdangerous signature and expiry are left out. `Utils.ValidateTokenSpec` takes the decoded payload, or None for
  a bad or expired token.
- Password hashing becomes storing the new password in the user row.
- `is_safe_url` is a predicate parameter (`isSafe`). WTForms' `Email()` and `URL()` are parameters too (`isEmail`,
  `isUrl`).
- `current_app.config` values are parameters: the administrator e-mail address and the resize suffixes.
- Mail sending (albumy/emails.py) is left out: it is a background thread. The views of the `auth` blueprint are not
  part of this model.
- albumy/fakes.py and test/base.py are left out: they are random data seeding and a fixture.
- The admin forms are left out: their role choices come from the database.
- `change_password` is left out. It calls `verify_password` and writes `password`, neither of which `User` defines.
  Only its form is modelled.
- `delete_account`, `change_email_request` and `change_email`, `delete_comment` and `reply_comment` are left out. They
  are outside the modelled handlers. `change_email` is only `validate_token`, which is modelled.
- The `ForgetPasswordForm` and `CropAvatarForm` rules are left out: they declare nothing beyond what the other forms
  show.
- Text.Lower: its own contract states only that the length is kept, and it lower-cases ASCII letters only. Python's full Unicode case mapping is not modelled. `Text.LowerAt` gives the per-character mapping.
- Utils.ChangeEmailRule: a `new_email` that is present but not a string is refused with False and no change, where albumy/utils.py:42-47 tests only for None, stores the value and returns True. What the database would make of a non-string address is not modelled. The token comes from `change_email_request`, which puts a string there.
- `User.photos` and `Photo.author` (albumy/models.py:26 and albumy/models.py:131) pass `back_population=`, which `relationship()` does not accept, so the module as written fails with a TypeError when it is imported. The model excludes that typo and treats both relationships as if they were spelled `back_populates`: a photo's author is its `author` field, and a user's photos are the photos carrying that author.
- Transactions and concurrency are left out. Each view is one atomic step.
- Two kinds of partial commit are modelled as committed before the failure: the follow or collect call before the
  step that fails, and the comment added before `push_comment_notification`.
- `photo_next` and `photo_previous` on a missing photo give the 404 of `get_or_404` and nothing more.
- Models.Db view methods: they state their effect as equality with the specification function and do not restate
  `Valid()`. Preservation of the invariant is proved once per view, about that function, in the `...Valid` lemmas.
- MainViews.ReadAllNotification: the order in which the loop visits the notifications is not modelled. It updates them
  as a set.
- UserViews.IndexSpec: `logout_user()` is modelled as the session becoming the Guest. The photo listing after it is
  not modelled.
- UserViews.FollowSpec: `current_user.receive_follow_notifications` (with an s) is read as the follower's own
  follow-notification flag. Neither spelling is declared in albumy/models.py, so an AttributeError is not modelled.

## Findings

| source | as written | input that shows it | evidently intended | confidence | as-written member | corrected member |
|---|---|---|---|---|---|---|
| albumy/blueprints/main.py:179 | `push_collect_notification(..., recipient=...)`, but the parameter is `receiver` | a confirmed user collects another user's photo whose author wants collect notifications | the author is notified once and the page redirects to the photo | high, not executed | MainViews.CollectKeywordFails | MainViews.CollectNew |
| albumy/blueprints/main.py:285 | reads `form.body`, but the field is `comment` (albumy/forms/main.py:19) | any valid comment, e.g. "nice" on an existing photo | the comment is stored, the author is notified, and the page redirects | high, not executed | MainComments.NewCommentBodyFails | MainComments.CommentNotificationRule |
| albumy/blueprints/user.py:55 | notifies when the follower's own (plural) flag is set | a follower without the flag follows a user who has it | the followed user's flag decides, as in albumy/blueprints/ajax.py:31 | medium, not executed | UserViews.FollowFlagMismatch | UserViews.FollowNew |
| albumy/forms/auth.py:13 | `^[a-zA-Z0-9]*$` with `re.match`; `$` also matches before a final newline | the username "bob\n" | letters and digits only | medium, not executed | Validators.AlnumRegexpAcceptsNewline | Validators.AlnumOnlyIsRegexpWithoutNewline |
| albumy/forms/user.py:31 | the allowed extensions are 'jpg' and 'png ' (with a space) | the avatar file "a.png" | '.png' files are accepted | high, not executed | FormsUser.AvatarRefusesPng | FormsUser.AvatarAllowedFixedRule |
