# Appdost server controllers in Dafny

Appdost is a small professional-network application. Its server keeps users,
connection requests, direct messages, notifications, posts and comments in a
document database, and exposes them through a set of Express controllers.
This project models those controllers as one state machine over the
document store and proves what each handler promises.

- **Store** (`store.dfy`). The database is a `Documents` value with one map per
  collection, keyed by document id, plus the counter that issues ids. The
  subset type `Store` keeps every stored id below the counter. One counter
  serves all collections, so a larger id means a later document, and
  `sort({createdAt: ±1})` becomes id order. `Valid` collects the invariants
  every handler preserves:
  - both parties of a connection are stored users;
  - users' `connections` lists are symmetric and duplicate-free;
  - there is at most one connection per pair of users;
  - users conform to the schema and their emails are unique;
  - notifications are well formed;
  - there is at most one unread message notification per sender and
    recipient;
  - post lists are duplicate-free, and every comment id a post lists belongs
    to a stored comment on that post.
- **Handlers**. Each handler is a pure function
  `(Store, caller, arguments) -> Result<Step<Reply>>`. An `Err` carries
  `NotFound`, `Unauthorized`, `BadRequest` (HTTP 404, 401, 400) or a schema
  violation, and leaves the store as it was.
- **Modules**. The modules follow the source files:
  - `UserModel` and `NotificationModel` model the two schema files;
  - `Connections`, `Messages`, `Notifications`, `Posts`, `Comments` and `Users`
    model the controllers;
  - `ConnectionProperties` and `Scenarios` hold the properties that span
    several calls;
  - `Text` holds the string transformations (trim, ASCII lower-casing, the
    upload path rewrite, the 50-character preview);
  - `Listing` holds the query and array-update operators (`find` with a sort,
    `countDocuments`, `$addToSet`, `$pull`/`filter`).

Two rules in the source are easy to miss, and the model keeps both:
- The profile update's `value || old` is JavaScript truthiness. An empty
  string keeps the stored value. An array, even an empty one, is truthy and
  replaces the stored list; only a missing array keeps it.
- Rejecting a connection deletes it whatever its status, and changes no
  user's `connections` list. After rejecting an *accepted* connection, the two
  lists still name each other although no connection document backs them
  (`ConnectionProperties.RejectAcceptedLeavesLinks`).

## Model

| member | source | states |
|---|---|---|
| Base.HttpStatus | server/controllers/connectionController.js:14-95 | not found, unauthorized and bad request map to 404, 401 and 400 and back; schema violations carry no status of their own |
| Text.Trim | server/models/User.js:5-9 | the `trim` setter's result is the part of the input left after dropping a whitespace-only prefix and suffix, and it starts and ends with no whitespace |
| Text.TrimUnique | server/models/User.js:5-9 | that part is the only one: any trimmed infix with whitespace-only margins equals the trim |
| Text.SkipLeading | server/models/User.js:5-9 | the index of the first non-whitespace character from a start position on, with only whitespace skipped |
| Text.SkipTrailing | server/models/User.js:5-9 | the index just past the last non-whitespace character of a range, with only whitespace skipped |
| Text.TrimIdempotent | server/models/User.js:5-9 | trimming twice equals trimming once |
| Text.TrimFixedIffTrimmed | server/models/User.js:5-9 | trim leaves a string unchanged exactly when it has no leading or trailing whitespace |
| Text.TrimEmptyIffAllSpace | server/models/User.js:5-9 | a required name becomes empty after trimming exactly when it is all whitespace |
| Text.LowerAscii | server/models/User.js:10-16 | the `lowercase` setter keeps the length and maps each upper-case ASCII letter to its lower-case letter |
| Text.TrimLowerCommute | server/models/User.js:10-16 | trimming and lower-casing commute |
| Text.NormaliseEmail | server/models/User.js:10-16 | a stored email is the trimmed input with every character lower-cased, so it is trimmed and has no upper-case ASCII letter |
| Text.NormaliseEmailIdempotent | server/models/User.js:10-16 | normalising an email twice equals normalising it once |
| Text.NormaliseEmailFixedIff | server/models/User.js:10-16 | normalisation leaves an email unchanged exactly when it is trimmed and has no upper-case letter |
| Text.SlashPath | server/controllers/userController.js:44-47 | the upload path keeps its length; every backslash becomes `/`, every other character stays in place, and no backslash remains |
| Text.SlashPathIdempotent | server/controllers/userController.js:44-47 | rewriting a rewritten path changes nothing |
| Text.Preview | server/controllers/messageController.js:49 | content of at most 50 characters is quoted whole; longer content is quoted as its first 50 characters followed by `...` |
| Listing.Ascending | server/controllers/messageController.js:78-86 | the listing holds exactly the matching documents, each once with its id, oldest first |
| Listing.Descending | server/controllers/notificationController.js:9-14 | the listing holds exactly the matching documents, each once with its id, newest first |
| Listing.DescendingIsReversed | server/controllers/notificationController.js:9-14 | newest first is oldest first reversed |
| Listing.CountIsListingLength | server/controllers/notificationController.js:57-60 | `countDocuments` with a filter equals the length of the listing with the same filter |
| Listing.AddToSet | server/controllers/connectionController.js:103-111 | `$addToSet` appends the value only when it is absent, keeps the existing list as a prefix, and keeps a duplicate-free list duplicate-free |
| Listing.AddToSetIdempotent | server/controllers/connectionController.js:103-111 | adding the same value twice equals adding it once |
| Listing.Pull | server/controllers/connectionController.js:195-203 | `$pull` drops every occurrence of the value and keeps every other value with its multiplicity |
| Listing.PullKeepsOrder | server/controllers/connectionController.js:195-203 | the values a pull keeps appear in the same relative order as in the original list |
| Listing.PullMembership | server/controllers/connectionController.js:195-203 | after a pull, a value is present exactly when it was present and is not the pulled value |
| Listing.PullDistinct | server/controllers/connectionController.js:195-203 | a pull keeps a duplicate-free list duplicate-free |
| UserModel.ApplySetters | server/models/User.js:5-16 | the name becomes the trimmed name, the email the trimmed, lower-cased email, and no other field changes |
| UserModel.NameSetter | server/models/User.js:5-9 | the trimmed name is empty exactly when the name is all whitespace, and a trimmed name is kept as is |
| UserModel.EmailSetter | server/models/User.js:10-16 | the normalised email is empty exactly when the email is all whitespace, and a trimmed lower-case email is kept as is |
| UserModel.ConformsIffSettersFixed | server/models/User.js:5-16 | a user conforms exactly when name and email are present and the setters leave the document unchanged |
| UserModel.ApplySettersIdempotent | server/models/User.js:5-16 | running the setters twice equals running them once |
| UserModel.Validate | server/models/User.js:4-16 | validation succeeds exactly when name and email are not all whitespace; the saved document has the trimmed name and normalised email; a conforming document passes unchanged |
| UserModel.Save | server/models/User.js:5-16 | a save fails for an invalid document or an email another user holds, and otherwise stores the document with the setters applied (trimmed name, normalised email) and changes no other user; it keeps emails unique and all users conforming |
| UserModel.New | server/models/User.js:17-48 | a new user needs a name and an email that are not all whitespace and a password of at least 6 characters; it is stored trimmed and normalised; bio, avatar, skills, experience and both id lists start empty |
| NotificationModel.ParseKind | server/models/Notification.js:14-18 | the `type` enum admits exactly the three spellings `connection_request`, `connection_accepted` and `message` |
| NotificationModel.KindRoundTrip | server/models/Notification.js:14-18 | parsing the stored spelling of any notification kind gives back that kind |
| NotificationModel.ParseModel | server/models/Notification.js:31-34 | the `relatedModel` enum admits exactly `Connection` and `Message` |
| NotificationModel.ModelRoundTrip | server/models/Notification.js:31-34 | parsing the stored spelling of any related model gives back that model |
| NotificationModel.ModelFor | server/controllers/messageController.js:45-52 | message notifications point into `Message`, connection notifications into `Connection` |
| NotificationModel.Create | server/models/Notification.js:3-39 | creation fails exactly when the required content is empty; a created notification is unread and carries the given fields |
| Store.NotificationsAddsOne | server/controllers/messageController.js:35-53 | adding a well-formed notification keeps the notifications well formed and deduplicated, provided it is not a second unread message notification for the same sender and recipient |
| Store.AddsOneSize | server/controllers/connectionController.js:48-55 | a collection that gains one document grows by exactly one |
| Connections.RequestNote | server/controllers/connectionController.js:47-55 | the request notification goes from the caller to the recipient, is unread, is of kind `connection_request`, points at the new connection and reads "<name> sent you a connection request" |
| Connections.AcceptNote | server/controllers/connectionController.js:113-122 | the acceptance notification goes to the requester, is unread, is of kind `connection_accepted`, points at the connection and reads "<name> accepted your connection request" |
| Connections.Link | server/controllers/connectionController.js:103-106 | `$addToSet` on one user's list changes only that user, and a missing user is left alone |
| Connections.Unlink | server/controllers/connectionController.js:195-198 | `$pull` on one user's list changes only that user, and a missing user is left alone |
| Connections.LinkPair | server/controllers/connectionController.js:103-111 | after acceptance each party is in the other's list; no other membership changes; no other user changes; lists stay duplicate-free |
| Connections.LinkPairIdempotent | server/controllers/connectionController.js:103-111 | linking a pair twice equals linking it once |
| Connections.UnlinkPair | server/controllers/connectionController.js:195-203 | after removal neither party is in the other's list; every other membership and every other user is unchanged |
| Connections.SendRequest | server/controllers/connectionController.js:9-64 | 404 for a missing recipient, then 400 for a self-request, then 400 when any connection joins the pair in either direction; otherwise one pending connection and one request notification are added and nothing else changes |
| Connections.PendingRequests | server/controllers/connectionController.js:69-79 | exactly the pending connections addressed to the caller, in storage order |
| Connections.AcceptedConnections | server/controllers/connectionController.js:157-170 | exactly the accepted connections the caller is a party to, in storage order |
| Connections.Accept | server/controllers/connectionController.js:84-130 | 404 for an unknown id, 401 unless the caller is the recipient; otherwise the status becomes accepted whatever it was, both lists are linked and one acceptance notification goes to the requester |
| Connections.Reject | server/controllers/connectionController.js:136-152 | 404, then 401 unless the caller is the recipient; otherwise the connection is deleted whatever its status and nothing else changes |
| Connections.Remove | server/controllers/connectionController.js:175-206 | 404, then 401 unless the caller is a party; otherwise the connection is deleted and each party is pulled from the other's list |
| ConnectionProperties.OnePerPairAdd | server/controllers/connectionController.js:26-44 | a connection added for a pair that nothing joins keeps one connection per pair |
| ConnectionProperties.OnePerPairRestatus | server/controllers/connectionController.js:99-100 | changing a status keeps one connection per pair |
| ConnectionProperties.LinkPairSymmetric | server/controllers/connectionController.js:103-111 | acceptance keeps the lists symmetric |
| ConnectionProperties.UnlinkPairSymmetric | server/controllers/connectionController.js:195-203 | removal keeps the lists symmetric |
| ConnectionProperties.SendRequestValid | server/controllers/connectionController.js:38-55 | a successful request keeps every store invariant |
| ConnectionProperties.AcceptValid | server/controllers/connectionController.js:99-122 | a successful acceptance keeps every store invariant |
| ConnectionProperties.RejectValid | server/controllers/connectionController.js:150 | a successful rejection keeps every store invariant |
| ConnectionProperties.RemoveValid | server/controllers/connectionController.js:192-203 | a successful removal keeps every store invariant |
| ConnectionProperties.SecondRequestRefused | server/controllers/connectionController.js:26-36 | after a successful request, a second one for the same pair fails with 400 in either direction |
| ConnectionProperties.AcceptTwice | server/controllers/connectionController.js:99-111 | accepting the same connection again leaves users and connections as after the first acceptance |
| ConnectionProperties.AcceptNotifiesEachTime | server/controllers/connectionController.js:113-122 | every successful acceptance adds one notification, a repeated one included |
| ConnectionProperties.RejectAcceptedLeavesLinks | server/controllers/connectionController.js:136-152 | rejecting an accepted connection leaves both users in each other's list although the pair no longer has a connection |
| Messages.MessageNote | server/controllers/messageController.js:45-53 | the message notification is unread, of kind `message`, points at the message and reads "New message from <name>: <preview>" |
| Messages.Send | server/controllers/messageController.js:9-63 | 404 for a missing recipient first, then 400 for a message to oneself; otherwise one unread message is stored, and one notification is added exactly when no unread message notification from the caller to the recipient exists |
| Messages.MarkThreadRead | server/controllers/messageController.js:88-92 | a message becomes read exactly when it goes from the peer to the caller; nothing else changes |
| Messages.MarkThreadReadTwice | server/controllers/messageController.js:88-92 | marking a thread read twice equals marking it once |
| Messages.Thread | server/controllers/messageController.js:67-95 | 404 for an unknown peer; otherwise exactly the messages between the two users, oldest first, with their read flags from before the call; then the peer's messages to the caller are marked read |
| Messages.ThreadReadsPeer | server/controllers/messageController.js:88-92 | after a thread read the peer has no unread message to the caller; every other message is as it was |
| Messages.ThreadTwice | server/controllers/messageController.js:67-95 | reading a thread twice leaves the store as after the first read |
| Messages.UnreadCount | server/controllers/messageController.js:133-140 | the number of unread messages addressed to the caller, which is the length of the listing with the same filter |
| Messages.ThreadLowersUnread | server/controllers/messageController.js:133-140 | a thread read lowers the caller's unread count by exactly the peer's unread messages to the caller |
| Messages.Peers | server/controllers/messageController.js:100-127 | the other party of every message the caller sent or received, and never the caller |
| Messages.Conversations | server/controllers/messageController.js:100-128 | exactly the stored users among the caller's peers, each once |
| Messages.SendLeavesOneNotice | server/controllers/messageController.js:35-53 | after a send the recipient has an unread message notification from the caller, and there is still at most one per pair |
| Messages.SecondSendNotifiesNothing | server/controllers/messageController.js:35-53 | a second message before the notification is read adds no notification |
| Messages.SendValid | server/controllers/messageController.js:25-53 | a successful send keeps every store invariant |
| Messages.ThreadValid | server/controllers/messageController.js:88-92 | a thread read keeps every store invariant |
| Notifications.List | server/controllers/notificationController.js:8-17 | exactly the caller's notifications, newest first |
| Notifications.Owned | server/controllers/notificationController.js:23-33 | 404 for an unknown id, then 401 unless the caller is the recipient |
| Notifications.MarkRead | server/controllers/notificationController.js:22-39 | fails like the ownership check; otherwise only that notification changes, and it becomes read |
| Notifications.MarkReadTwice | server/controllers/notificationController.js:35-36 | marking a notification read twice equals marking it once |
| Notifications.MarkReadCount | server/controllers/notificationController.js:35-36 | marking one notification read lowers the unread count by one if it was unread, and by nothing otherwise |
| Notifications.MarkAllRead | server/controllers/notificationController.js:45-48 | every notification addressed to the caller is read afterwards, and every other notification is unchanged |
| Notifications.MarkAll | server/controllers/notificationController.js:44-51 | the handler sets `read` on exactly the caller's notifications, keeps every other field and every other collection, and adds or removes no notification |
| Notifications.UnreadCount | server/controllers/notificationController.js:56-63 | the number of unread notifications addressed to the caller, which is the length of the listing with the same filter |
| Notifications.MarkAllLeavesNoneUnread | server/controllers/notificationController.js:44-51 | after marking all read the caller's unread count is 0 |
| Notifications.MarkAllTwice | server/controllers/notificationController.js:44-51 | marking all read twice equals marking all read once |
| Notifications.MarkAllKeepsOthers | server/controllers/notificationController.js:45-48 | marking all read leaves every other user's unread count unchanged |
| Notifications.Delete | server/controllers/notificationController.js:68-83 | fails like the ownership check; otherwise exactly that notification is removed |
| Notifications.DeleteOnce | server/controllers/notificationController.js:68-83 | a deletion removes one notification, and repeating it fails with 404 |
| Notifications.ReadingKeepsNotifications | server/controllers/notificationController.js:35-48 | marking notifications read keeps them well formed and deduplicated |
| Notifications.MarkReadValid | server/controllers/notificationController.js:35-36 | marking one notification read keeps every store invariant |
| Notifications.MarkAllValid | server/controllers/notificationController.js:45-48 | marking all read keeps every store invariant |
| Notifications.DeleteValid | server/controllers/notificationController.js:81 | a deletion keeps every store invariant |
| Posts.ImagePath | server/controllers/postController.js:11-15 | no upload gives the empty image; an upload gives its path with every backslash replaced by `/` and every other character kept in place |
| Posts.CreatePost | server/controllers/postController.js:9-25 | one post by the caller is added with no likes and no comments; nothing else changes |
| Posts.GetPostAfterCreate | server/controllers/postController.js:9-25 | reading the new post back gives the caller, content and image as written with no likes and no comments; every other post reads as before |
| Posts.Feed | server/controllers/postController.js:30-37 | every post exactly once, newest first |
| Posts.GetPost | server/controllers/postController.js:42-53 | the stored post, or 404 |
| Posts.Authored | server/controllers/postController.js:61-67 | 404 for an unknown post, then 401 unless the caller is the author |
| Posts.UpdatePost | server/controllers/postController.js:58-77 | fails like the authorship check; otherwise only the content can change: it is replaced by a non-empty new content and kept otherwise |
| Posts.DeletePost | server/controllers/postController.js:82-97 | fails like the authorship check; otherwise exactly that post is removed |
| Posts.Toggle | server/controllers/postController.js:106-115 | the caller is a liker afterwards exactly when they were not before; an unlike removes every occurrence and keeps the other likers in order; a like appends the caller once; nobody else's membership changes |
| Posts.ToggleTwice | server/controllers/postController.js:106-115 | two likes by the same user restore the set of likers, and restore the list itself when the user had not liked the post |
| Posts.LikePost | server/controllers/postController.js:102-126 | 404 for an unknown post; otherwise the stored likers become the toggle of the old list (the caller filtered out if present, else appended once), every other liker is kept, and the reply is the post id with the new likers |
| Posts.LikeTwice | server/controllers/postController.js:102-126 | liking a post twice leaves the same set of likers as before |
| Posts.CreatePostValid | server/controllers/postController.js:17-23 | creating a post keeps every store invariant |
| Posts.UpdatePostValid | server/controllers/postController.js:69-71 | updating a post keeps every store invariant |
| Posts.DeletePostValid | server/controllers/postController.js:91 | deleting a post keeps every store invariant |
| Posts.LikePostValid | server/controllers/postController.js:107-117 | a like or unlike keeps every store invariant |
| Comments.CreateComment | server/controllers/commentController.js:8-27 | the comment is stored even for a missing post; its id is appended to the post's list only when the post exists |
| Comments.CreateCommentListsOnce | server/controllers/commentController.js:20-24 | a comment on an existing post lengthens its list by one and lists the new id exactly once |
| Comments.CommentsOf | server/controllers/commentController.js:32-38 | exactly the comments naming the post, newest first |
| Comments.DeleteComment | server/controllers/commentController.js:43-67 | 404 for an unknown id, then 401 unless the caller is the author; otherwise every occurrence of the id leaves its post's list, the other ids keeping their order, and the comment is deleted, and no other post or comment changes |
| Comments.DeleteCommentUnlists | server/controllers/commentController.js:53-61 | after a deletion no post lists the comment |
| Comments.ListingNewKeepsPosts | server/controllers/commentController.js:17-24 | storing and listing a new comment keeps post lists duplicate-free and backed by comments |
| Comments.UnlistingKeepsPosts | server/controllers/commentController.js:53-61 | deleting a comment and filtering its id keeps post lists duplicate-free and backed by comments |
| Comments.CreateCommentValid | server/controllers/commentController.js:17-24 | creating a comment keeps every store invariant |
| Comments.DeleteCommentValid | server/controllers/commentController.js:53-61 | deleting a comment keeps every store invariant |
| Users.Profile | server/controllers/userController.js:114-123 | the stored user, or 404 for an unknown id |
| Users.AllUsers | server/controllers/userController.js:106-109 | every user exactly once |
| Users.Revised | server/controllers/userController.js:39-50 | each string field takes a non-empty supplied value and keeps the stored one otherwise; an array is replaced whenever it is supplied; the avatar changes only with an upload and then holds no backslash; `connections` is untouched |
| Users.UpdateProfile | server/controllers/userController.js:33-69 | 404 for an unknown caller; otherwise the revised document is saved, which can fail validation or the unique email index; only the caller's document changes, and it conforms |
| Users.ProfileAfterUpdate | server/controllers/userController.js:33-69 | after an update, reading the caller's profile gives the document the handler replied with; other profiles read as before |
| Users.UpdateProfileKeepsLinks | server/controllers/userController.js:33-63 | a profile update replaces only the caller's document and keeps its `connections` list |
| Users.UpdateProfileWithoutChanges | server/controllers/userController.js:39-52 | a request that supplies nothing leaves the store as it was |
| Users.SaveKeepsUsersConform | server/controllers/userController.js:52 | a successful save keeps every user conforming and the emails unique |
| Users.UpdateProfileValid | server/controllers/userController.js:39-52 | a profile update keeps every store invariant |
| Users.UploadAvatar | server/controllers/userController.js:74-101 | 400 without a file, checked before the lookup; then 404 for an unknown caller; otherwise the avatar becomes the upload path without backslashes and `connections` is kept |
| Users.ProfileAfterUpload | server/controllers/userController.js:74-101 | after an upload, reading the caller's profile gives the document the handler replied with; other profiles read as before |
| Users.UploadAvatarSucceeds | server/controllers/userController.js:80-84 | for a stored user in a conforming store an upload cannot fail, and only the avatar changes |
| Users.UploadAvatarValid | server/controllers/userController.js:83-84 | an avatar upload keeps every store invariant |
| Scenarios.ReadAllThenSendNotifies | server/controllers/messageController.js:35-53 | after the recipient marks everything read, the next message notifies them again |
| Scenarios.ReadNoticeThenSendNotifies | server/controllers/messageController.js:35-53 | after the recipient marks the unread message notification read, the next message notifies them again |

## Left out

- The React client, the Express routes and server wiring, and the database connection. Only the handlers' effect on the store is modelled. The model includes `removeConnection` even though no route leads to it.
- Connections.SendRequest, Connections.Accept and Messages.Send require the caller to be a stored user. The authentication middleware loads the caller from the user collection, and these handlers read the caller's name; the model does not cover a caller who is deleted while a request is in flight.
- Password hashing, password comparison and token generation are foreign cryptographic calls. `UserModel.New` checks only the password's minimum length, and the hash is not stored. The pre-save hook (server/models/User.js:56-62) calls `next()` without returning when the password is unchanged, so it still hashes the current hash and assigns the result to the in-memory document after the save has been released; the source does not show whether that value is ever written, and the model has no password field.
- Multer is not modelled. An upload is given as the path the middleware stored it under, or `None`.
- `populate` and `select` projections and ObjectId casting are not modelled: references are ids, a handler that creates a document (`sendConnectionRequest`, `sendMessage`, `createPost`, `createComment`) replies with its id, and the document is the one stored under that id. The field selections of the profile replies and of `getUserConversations` (messageController.js:125) are not modelled.
- The server does not serialise requests. Each handler is modelled as one atomic step, so the read-then-create race in `sendConnectionRequest` and the partial states between the separate writes of accept, remove and comment deletion are not modelled.
- Timestamps are not modelled; the id counter replaces them, so `createdAt` order is id order. `find` without a sort (`getConnectionRequests`, `getConnections`, `getUsers`, and the `User.find` by `_id $in` in `getUserConversations`, messageController.js:123-125) is modelled as storage order, which is id order.
- Text.LowerAscii: lower-cases ASCII letters only, whereas JavaScript's `toLowerCase` also maps other Unicode letters.
- Text.Preview: counts Unicode characters, whereas `substring` counts UTF-16 code units. The two differ only for characters outside the Basic Multilingual Plane.
- UserModel.New: checks `minlength: 6` (server/models/User.js:20) on Unicode characters, whereas Mongoose counts UTF-16 code units, so a password of three characters outside the Basic Multilingual Plane is accepted by the source and rejected by the model.
- Base.HttpStatus: gives no status for schema violations. The error middleware chooses that status, and it is not part of this model.
- The Post, Comment, Message and Connection schema files are not part of this model. Their documents carry the fields the controllers read and write, and no validation beyond that.
- `connectionRequests` on a user is declared but written by no handler. It is kept as a field that every handler leaves unchanged.
- `getUserProfile` and `getUserById` differ only in where the id comes from, so both are `Users.Profile`.
