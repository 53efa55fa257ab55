# file-uploader: a Dafny model of the folder, file and share logic

This project models the core of an Express app where signed-in users upload files, arrange them in
folders and issue share links for folders. The Prisma database becomes an in-memory `Store`. It holds
sequences of `Folder`, `FileRecord` and `Share` rows plus the two autoincrement counters. Each
controller becomes a pure function. It takes the store, the session user (`Option<int>`, `None` when
nobody is signed in) and the request fields already parsed. It gives back a `Response` (redirect,
render with status, template and locals, `send`, or `next(error)`). Handlers that write data also
return the new store (`Step`).

Modules, following the repository's files:

- `Repository`: the rows, the store, the `Valid` invariant (unique ids below the counters), the
  `findFirst`/`findUnique` lookups and the `create` calls.
- `PathBuilder`: `buildFolderBreadcrumbs`. The owner-scoped walk up the parent links is followed by a
  reverse. The loop in the source has no bound, so the model carries the set of folders already
  visited. A walk that would come back to one of them ends in `Diverges`, which stands for the loop
  that never ends. The lemmas show three things:
  - On an acyclic owned chain the walk returns exactly that chain, root first.
  - When parents always precede their children, the walk never diverges.
  - Two ordinary `postCreateFolder` requests can build a cycle on which it does diverge.
- `SharedFolder`: `isSharedFolder`, with the clock as a parameter.
- `PreviewUrl`, `Paths`, `Upload`: `toPreviewUrl`, the inline `/uploads/<basename>` links, Node's
  POSIX `path.basename`, and the multer file-name callback with its 10 MiB limit.
- `ValidateRegister`: the express-validator chains as error-list functions. `isEmail` is a
  parameter.
- `FoldersController`, `FilesController`, `ShareController`, `FilesRouter`: the handlers. For the
  upload, the router's order is kept: multer checks the size before the handler checks the session.
- `Text`, `Listing`, `Http`, `Wrappers`: JavaScript's `trim`, ASCII lower-casing and number
  formatting; filtering and stable sorting; responses and views; `Option`.

## Model

| member | source | states |
|---|---|---|
| PathBuilder.Ancestry | utils/pathBuilder.js:5-13 | The upward walk: it is empty for a falsy or unresolved start. Otherwise it starts at the start folder, each crumb's folder is owned by the user and its parent is the next crumb, and the last crumb is where the loop stops (no parent, or a parent that is missing or foreign). |
| PathBuilder.Reverse | utils/pathBuilder.js:16 | `crumbs.reverse()`: same length, and position i holds the element that was i places from the end. |
| PathBuilder.BuildFolderBreadcrumbs | utils/pathBuilder.js:1-18 | The result is empty for a falsy id (null or 0) and for a missing or foreign start folder. Otherwise the start folder is the last crumb and every crumb is the parent of the next one (root first). The first crumb is where the walk stopped. |
| PathBuilder.CrumbsAreOwnedFolders | utils/pathBuilder.js:6-12 | Every crumb is the id and name of a folder owned by the user. |
| PathBuilder.RootFolderBreadcrumbs | utils/pathBuilder.js:5-17 | An owned folder with no parent is its own whole breadcrumb trail. |
| PathBuilder.RootedPathIdsDistinct | utils/pathBuilder.js:5-13 | On a chain that starts at a root and follows parent links, no folder repeats. |
| PathBuilder.AncestryAlongPath | utils/pathBuilder.js:5-13 | On such a chain, the walk from its k-th folder returns folders k down to 0. |
| PathBuilder.AncestryStep | utils/pathBuilder.js:11-13 | One loop iteration: an owned, unvisited folder is pushed and the walk goes on at its parent. |
| PathBuilder.BreadcrumbsOfRootedPath | utils/pathBuilder.js:1-18 | For an owned acyclic chain ending at a root, the breadcrumbs are exactly the chain, root first. The length is the depth, and the first crumb has no parent. |
| PathBuilder.AncestryTerminatesWhenRanked | utils/pathBuilder.js:5-14 | If owned parents always have a smaller rank than their children, the walk ends. |
| PathBuilder.BreadcrumbsTerminateWhenRanked | utils/pathBuilder.js:1-18 | The same for the whole breadcrumb call. |
| PathBuilder.BreadcrumbsTerminateWhenParentsPrecede | utils/pathBuilder.js:1-18 | In a valid store where every parent id names an older folder, the breadcrumbs never diverge. |
| FoldersController.UncheckedParentsCanFormCycle | controllers/foldersController.js:7-13 | Two `postCreateFolder` calls with unchecked parent ids give a valid store on which the breadcrumb loop never ends. |
| FoldersController.TwoFolderCycleDiverges | utils/pathBuilder.js:5-14 | When two owned folders are each other's parent, the walk from one of them never ends. |
| FoldersController.ExistingParentKeepsParentsPrecede | controllers/foldersController.js:7-13 | If the parent id names an existing folder, creating a folder keeps "parents precede children". |
| SharedFolder.IsSharedFolder | utils/isSharedFolder.js:1-18 | Any returned token belongs to a share that matches folder and owner and is live (`expiresAt` null or after `now`). The result is null iff no matching share is live. |
| SharedFolder.ExpiringNowIsNotShared | utils/isSharedFolder.js:10 | A share with `expiresAt == now` is already expired and is not returned. |
| SharedFolder.SharedEarlierIfSharedLater | utils/isSharedFolder.js:8-11 | A folder shared at a later time was already shared at every earlier time. |
| PreviewUrl.ToPreviewUrl | utils/getPreviewUrl.js:1-8 | Empty or absent gives `""`. An `http://` or `https://` path is returned unchanged. Any other path gives `/uploads/` plus its basename, which holds no `/`. |
| PreviewUrl.InlinePreviewUrl | controllers/foldersController.js:60 | The link the controllers build is `/uploads/` plus the basename, which holds no `/`. |
| PreviewUrl.InlineAgreesWithToPreviewUrl | utils/getPreviewUrl.js:2-7 | The inline link equals `toPreviewUrl` exactly for non-empty paths that are not http(s) URLs. |
| Paths.Basename | middleware/upload.js:11-12 | Node's POSIX basename holds no `/`, is never longer than the path, and leaves a slash-free name alone. |
| Paths.BasenameOfJoin | middleware/upload.js:9-14 | The basename of `dir + "/" + name` is `name` for a non-empty slash-free name. |
| Paths.BasenameIdempotent | middleware/upload.js:11-12 | Taking the basename twice is taking it once. |
| Upload.Sanitize | middleware/upload.js:13 | The replaced name holds only `[A-Za-z0-9_.-]` and is never longer than its input. |
| Upload.SanitizeRun | middleware/upload.js:13 | A maximal run of disallowed characters after an allowed prefix becomes exactly one `_`. |
| Upload.SanitizeFixesAllowed | middleware/upload.js:13 | A name of allowed characters only is left unchanged. |
| Upload.SanitizeIdempotent | middleware/upload.js:13 | Sanitising twice is sanitising once. |
| Upload.SafeBase | middleware/upload.js:11-13 | The safe base holds only allowed characters and no `/`, whatever `originalname` holds. It is no longer than the basename. |
| Upload.StoredName | middleware/upload.js:14 | The stored name starts with the decimal timestamp and `_`, and ends with the safe base. With a hex random part it holds no `/`. |
| Upload.StoredNameStampRoundTrip | middleware/upload.js:14 | The leading digits of the stored name read back as the timestamp. |
| Upload.StoredPath | middleware/upload.js:8-14 | multer's `file.path` is the upload directory, a `/`, then the stored name. With a hex random part its basename is exactly the stored name, the file multer wrote. |
| FilesRouter.UploadRoute | routers/filesRouter.js:9-30 | A file over 10485760 bytes gives the 400 "Upload Error" page and no write, whoever sends it. A store change means a signed-in user, a file within the limit, and exactly one new row with the stored path. Files stay within the limit and the store stays valid. |
| FilesRouter.Stored | middleware/upload.js:8-16 | What multer hands on: the client's name, type and size, and the path `<uploadDir>/<stored name>`. |
| FilesRouter.UploadedPreviewIsStoredName | controllers/filesController.js:16-19 | A signed-in upload within the limit, with no folder or an owned one, adds one row. Its preview link is `/uploads/` plus the name multer stored it under. |
| FilesRouter.StoredPathPreviewsAgree | utils/getPreviewUrl.js:2-7 | The upload directory is absolute, so `toPreviewUrl` and the inline link agree on stored paths. |
| ValidateRegister.UsernameErrors | validators/validateRegister.js:4-10 | No username error iff the trimmed value has 3 to 20 characters, all in `[a-z0-9_]`. Every error is about `username`. |
| ValidateRegister.UsernameCharsetIsLowerWordChars | validators/validateRegister.js:8-9 | Passing both `matches(/^[a-zA-Z0-9_]+$/)` and `isLowercase` means a non-empty string over `[a-z0-9_]`. |
| ValidateRegister.UppercaseUsernameRejected | validators/validateRegister.js:9 | A trimmed username with an uppercase letter gets the lowercase error. |
| ValidateRegister.SanitizedUsername | validators/validateRegister.js:4-10 | The value left in `req.body.username` has the trimmed length and no ASCII capital. It equals the trimmed input iff that input has no ASCII capital. |
| ValidateRegister.AcceptedUsernameIsAlreadyLowercase | validators/validateRegister.js:9-10 | On an accepted username the final `toLowerCase` changes nothing. |
| ValidateRegister.EmailErrors | validators/validateRegister.js:12-16 | No email error iff the trimmed value has 6 to 264 characters and `isEmail` holds. |
| ValidateRegister.PasswordErrors | validators/validateRegister.js:18-20 | No password error iff the untrimmed password has at least 8 characters. |
| ValidateRegister.PasswordIsNotTrimmed | validators/validateRegister.js:18-20 | Eight spaces are an acceptable password. |
| ValidateRegister.ConfirmPasswordErrors | validators/validateRegister.js:22-29 | No confirmation error iff it is non-empty and exactly equal to the password. |
| ValidateRegister.RegisterErrors | validators/validateRegister.js:3-30 | The error list is empty iff all four fields pass. |
| ValidateRegister.RegistrationProceedsIff | controllers/authController.js:26 | Registration goes on iff every rule holds, spelled out field by field. |
| FoldersController.PostCreateFolder | controllers/foldersController.js:1-20 | With no user: a redirect to login and no change. A missing name goes to `next`. Otherwise exactly one folder is added: the user's, with the given parent (null when none) and the trimmed name. Files and shares are unchanged, and the redirect goes to `/folders/<new id>` with a fresh id. The store stays valid. |
| FoldersController.CreateFolderKeepsOwnership | controllers/foldersController.js:7-13 | Creating a folder keeps every file and every share pointing at a folder of its owner. |
| FoldersController.ChildFolders | controllers/foldersController.js:42-48 | Exactly the user's folders whose parent is this folder, with multiplicities, in ascending `createdAt`. |
| FoldersController.FilesInFolder | controllers/foldersController.js:50-56 | Exactly the user's files in this folder, with multiplicities, in descending `createdAt`. |
| FoldersController.GetFolderById | controllers/foldersController.js:22-73 | Login redirect with no user. A missing folder and a foreign folder both give the same 404 "notFound" page. An owned folder gives its page with exactly its children and files, each file kept whole with its `/uploads/` link. |
| FoldersController.CreatedFolderIsViewable | controllers/foldersController.js:15 | The folder just created opens for its creator at the redirect target. |
| FoldersController.CreatedRootFolderBreadcrumbs | controllers/foldersController.js:7-15 | A new root folder's breadcrumbs are that one folder. |
| Http.WithPreview | controllers/foldersController.js:58-61 | The row is kept whole. The link is `/uploads/` plus the basename of the row's `storagePath`, which holds no `/`. |
| Http.WithPreviews | controllers/filesController.js:16-19 | The mapping keeps length and order, and a file's view is present iff the file is. |
| FilesController.RenderFiles | controllers/filesController.js:1-30 | The root page lists exactly the user's folders with no parent and the user's files with no folder. Each file carries its `/uploads/` link. |
| FilesController.RenderFileById | controllers/filesController.js:32-67 | The lookup is by id only: a missing id gives the 404 "file" page, and an existing id renders that file. |
| FilesController.AnyUserSeesAnyFile | controllers/filesController.js:38-51 | Any signed-in user who asks for a stored file's id is shown that file, whoever owns it. |
| FilesController.RenderOwnFileById | controllers/filesController.js:32-67 | The corrected lookup never shows a file of another user. |
| FilesController.ForeignFileLooksMissing | controllers/foldersController.js:36-40 | With the owner check, a foreign file cannot be told apart from a missing id. |
| FilesController.RenderUploadForm | controllers/filesController.js:69-80 | Login redirect with no user. Otherwise `currentFolderId` is the numeric query value, or null. |
| FilesController.PostUploadFile | controllers/filesController.js:82-127 | With no user: login, no change. No file: redirect to the form, no change. A folder that is absent or foreign: 403, no change. Otherwise exactly one file row: the user's, in the given folder, with the upload's name, path, type and size. The redirect goes to `/folders/<id>` or `/files`. It keeps the store valid and files inside owned folders. |
| FilesController.UploadedFileIsListedInFolder | controllers/filesController.js:95-123 | A file uploaded into a folder appears with its link on that folder's page. |
| FilesController.UploadedFileIsListedAtRoot | controllers/filesController.js:108-123 | A file uploaded without a folder appears on the root listing. |
| ShareController.PostShareToken | controllers/shareController.js:3-32 | With no user: login, no change. A non-integer id: 404 "Folder not found", no change. Otherwise exactly one share (token, user, folder id, expiry or null) is appended, with a redirect to `/share/<token>`. Folders, files and both id counters never change. |
| ShareController.IssuedShareIsFound | controllers/shareController.js:13-27 | A share issued with no expiry, or one in the future, is found by `isSharedFolder`. If nothing was live before, the new token is returned. |
| ShareController.ShareIssuingIgnoresFolders | controllers/shareController.js:9-25 | The outcome of issuing does not depend on the folders at all. |
| ShareController.ForeignFolderCanBeShared | controllers/shareController.js:9-27 | A user can issue a share for another user's folder, which breaks "shares point at their owner's folders". |
| ShareController.GetFolderOnlyFindsOwnFolders | controllers/shareController.js:34-45 | `getFolder` finds a folder iff it exists and the user owns it, and then it is that folder. |
| ShareController.PostShareTokenOwned | controllers/shareController.js:3-45 | The corrected issuer: a missing or foreign folder gives the not-found page and no share. A new share is on an owned folder, and "shares point at their owner's folders" is kept. |
| ShareController.OwnedShareMatchesOriginal | controllers/shareController.js:3-32 | On an owned folder the corrected issuer behaves exactly like the original. |
| ShareController.RenderShareForm | controllers/shareController.js:47-66 | Login redirect with no user. A non-integer id gives 404. Otherwise the form shows the id and the user, and `folder` is the user's folder with that id, or null iff the user has none. |
| Repository.FindFolder | controllers/foldersController.js:32-34 | The folder found has the requested id and is in the table. Nothing is found iff no folder has that id. |
| Repository.FindFile | controllers/filesController.js:38-40 | The file found has the requested id and is in the table. Nothing is found iff no file has that id. |
| Repository.FindOwnedFolder | controllers/shareController.js:37-44 | A folder is returned only when both id and owner match, and null iff none does. |
| Repository.CreateFolder | controllers/foldersController.js:7-13 | It appends one row with the next id and leaves the other tables alone. The store stays valid and the id is fresh. |
| Repository.CreateFile | controllers/filesController.js:108-117 | The same for a file row. |
| Repository.CreateShare | controllers/shareController.js:18-25 | It appends the share row and leaves folders, files and both id counters alone. |
| Listing.SortBy | controllers/foldersController.js:47 | The result is sorted by the key and is a permutation of its input. |
| Listing.Filter | controllers/filesController.js:7-13 | Membership iff the predicate holds, with the original multiplicities. |
| Text.Trim | validators/validateRegister.js:5 | JavaScript `trim`: it drops exactly the whitespace on both ends and keeps the middle. |
| Text.TrimIdempotent | controllers/foldersController.js:11 | Trimming twice is trimming once. |
| Text.LowerAscii | validators/validateRegister.js:10 | `toLowerCase` keeps the length, maps each ASCII capital to its lower-case letter, leaves every other character alone, and leaves no ASCII capital. |
| Text.LowerAsciiFixesExactlyLowercase | validators/validateRegister.js:9-10 | Lower-casing leaves a string unchanged iff it has no uppercase letter. |
| Text.IntToDecimal | controllers/foldersController.js:15 | The decimal form of an id is non-empty, slash-free and reads back as the id. |
| Text.DecimalRoundTrip | controllers/foldersController.js:15 | Reading back the decimal form of a natural number gives the number. |
| Text.IntToDecimalInjective | controllers/filesController.js:119-120 | Different ids give different redirect paths. |

## Left out

- Prisma, Express, EJS, the file system and the clock stay outside the model. The inputs they supply
  are parameters:
  - `Date.now()`, `Math.random()`, `uuidv4()`, `new Date()` and the parsed `new Date(expires)`;
  - `process.cwd()`, through the upload directory;
  - `isEmail`.
- `Number(...)` parsing of request strings, including NaN, whitespace and fractions, is not modelled.
  The handlers receive `Option<int>`.
  - `Some` is the value the code would use. For an upload or a new folder, `None` means the field was
    empty or absent.
  - For `postShareToken` and `renderShareForm`, `None` means `Number.isInteger` failed.
  - `getFolderById` and `renderFileById` take the id already parsed.
- Times are integers. JavaScript `Date` semantics are left out, and so is an unparseable `expires`
  value, which Prisma would reject through `next(err)`.
- Prisma throwing on database errors (`next(error)`) is not modelled, except for a missing
  `req.body.name`, where `.trim()` throws.
- The database schema is not part of this model, so no foreign key is assumed:
  - `postCreateFolder` stores the parent id as given;
  - `postShareToken` stores any integer folder id.
  The lemmas state what the breadcrumb walk needs (parents precede children) and what breaks without
  it (a cycle).
- Ties in `createdAt` are kept in table order by the stable sort. The database leaves their order
  open.
- PathBuilder.BuildFolderBreadcrumbs: a walk that revisits a folder gives `Diverges` instead of a
  list, because the source loops forever there.
- Text.LowerAscii: only ASCII letters are lower-cased, and only ASCII uppercase counts for
  `isLowercase`. JavaScript and validator.js fold all of Unicode.
- ValidateRegister.UsernameErrors: a string's length is its number of characters (Unicode code
  points), as in validator.js's `isLength`. But `isLength` also does not count the variation
  selectors U+FE0E and U+FE0F, and the model counts them. The same holds for
  ValidateRegister.EmailErrors.
- Paths.Basename: only the POSIX form of Node's `path.basename` is modelled, not the win32 form.
- FilesRouter.UploadRoute: the model accepts a file of exactly 10485760 bytes (`size ==
  MaxFileSize`) and refuses only larger ones. Where multer's `fileSize` limit falls is decided by
  its busboy dependency, which is not part of this model, so this boundary is an assumption.
- FilesRouter.UploadRoute: multer errors other than `LIMIT_FILE_SIZE`, which give the 500 "Upload
  Error" page, are not modelled. Neither are files multer writes before it rejects an oversized
  stream.
- The routers, `app.js`, sessions, Passport and the login and registration handlers are left out.
  Of `authController.js` only the `validationResult` check is used.
- `deleteFile` and `deleteShare` are named in the routers but not defined in the controllers. The
  share views (`renderShareView`, `renderShareFolder`, `renderShareFile`) are a static page or empty
  bodies. None of them is modelled.
- Recursive folder delete, file delete, a storage fallback, share revocation, descendant checks and
  anonymous share browsing do not exist in the code. Nothing is invented for them, and nothing
  bounds the breadcrumb walk, because the code does not either.
- The 404 for a missing file renders the `file` template, which the code's own comment doubts
  exists. The model keeps the template name as written.

## Findings

| source | as written | input that shows it | evidently intended | confidence | as-written member | corrected member |
|---|---|---|---|---|---|---|
| controllers/filesController.js:38-51 | `renderFileById` looks a file up by id only and renders it to any signed-in user | user 2 requests `/files/<id>` of a file owned by user 1 and is shown it | the owner check `getFolderById` makes, where a foreign file gives the same 404 as a missing one | medium, not executed | FilesController.AnyUserSeesAnyFile | FilesController.RenderOwnFileById |
| controllers/shareController.js:9-27 | `postShareToken` creates a share for any integer folder id, without checking that the folder exists or belongs to the user | user 2 posts a share for the id of user 1's folder and is redirected to the new share | check ownership with `getFolder` (already defined there) before creating the share | medium, not executed | ShareController.ForeignFolderCanBeShared | ShareController.PostShareTokenOwned |
