# Markdown editor with GitHub storage — a Dafny model

The application is a browser Markdown editor that saves its document to a
GitHub repository. This project models the two parts of it that hold logic:

- **The repository file browser** (`GitHubFolderManager`). It lists one
  folder of the repository. Entries are normalised and sorted with folders
  first, then by name. The user can enter folders, go back to the parent,
  jump by breadcrumb, pick a Markdown file as the save path, and create a
  folder by writing a placeholder `README.md` into it. Modules `Paths`,
  `Listing` and `FolderManager`; the component is the class
  `FolderManager.GitHubFolderManager`.
- **Saving and settings** (`App`). Saving checks that token, owner and
  repository are set. It then reads the target file's `sha`: any failed read
  means "create". It writes with exactly the configured coordinates, commit
  message and that `sha`, and reports the outcome in a status line. The
  status line is drawn as a success when it contains `成功`. The settings
  handlers change exactly one field. Module `MarkdownApp`, class
  `MarkdownApp.App`; the settings record is in module `Config`.

The GitHub HTTP client cannot be seen, so every response is a parameter of
the method that would await it (`Api.Outcome`: success with data, or failure
with optional messages). Every request the code would send is returned as a
value (`Api.GetRequest`, `Api.PutRequest`), so "no request is sent" can be
stated. Each request is applied atomically.

Behaviours of the code that the model keeps as written:
- a failed navigation does not roll back: it shows an empty list, with an
  error, at the folder it tried to enter;
- a response is never discarded as stale;
- a conflicting write is not told apart from any other failed write;
- entries can have GitHub's four content types (`dir`, `file`, `symlink`,
  `submodule`), not only files and folders.

## Model

| member | source | states |
|---|---|---|
| `Paths.Split` | src/components/GitHubFolderManager.jsx:83 | `split('/')` gives at least one piece, and no piece holds a separator |
| `Paths.JoinSplit` | src/components/GitHubFolderManager.jsx:83 | joining the pieces of `split('/')` with `/` gives back the string |
| `Paths.SplitJoin` | src/components/GitHubFolderManager.jsx:83 | splitting a `/`-join of separator-free pieces gives back the pieces |
| `Paths.DropLast` | src/components/GitHubFolderManager.jsx:16 | `slice(0, -1)` keeps every element but the last, and gives nothing for an empty array |
| `Paths.NonEmpty` | src/components/GitHubFolderManager.jsx:14 | `filter(Boolean)` keeps only non-empty strings, each taken from the input, is never longer than the input, and keeps a list with no empty string unchanged |
| `Paths.NonEmptyAppend` | src/components/GitHubFolderManager.jsx:14 | `filter(Boolean)` of a concatenation is the concatenation of the filtered parts, so with `SegmentsOfSegment` it keeps exactly the non-empty strings, in order |
| `Paths.Segments` | src/components/GitHubFolderManager.jsx:14 | breadcrumbs are non-empty segments without separators |
| `Paths.SegmentsOfSplit` | src/components/GitHubFolderManager.jsx:14 | the `currentPath ?` guard changes nothing: the empty path's single empty piece is filtered out anyway |
| `Paths.SegmentsAppend` | src/components/GitHubFolderManager.jsx:14 | the breadcrumbs of `a/b` are those of `a` followed by those of `b` |
| `Paths.SegmentsOfSegment` | src/components/GitHubFolderManager.jsx:14 | a single non-empty segment is its own only breadcrumb, and the empty path has none |
| `Paths.SegmentsJoin` | src/components/GitHubFolderManager.jsx:14 | the breadcrumbs of a join of non-empty segments are those segments (round trip) |
| `Paths.InitialFolder` | src/components/GitHubFolderManager.jsx:14-17 | the breadcrumbs of the initial folder are all of `currentPath`'s breadcrumbs but the last |
| `Paths.InitialFolderIsParent` | src/components/GitHubFolderManager.jsx:14-17 | for a path without empty segments, the initial folder is the path's parent, so the browser opens on the folder holding the selected file |
| `Paths.ParentOf` | src/components/GitHubFolderManager.jsx:83 | "back" from a path without `/` enters the root `""`; otherwise it enters everything before the path's last `/`, after which no `/` follows |
| `Paths.ParentOfChild` | src/components/GitHubFolderManager.jsx:83 | "back" from `q/s`, for a segment `s`, enters `q` |
| `Paths.ParentOfTopLevel` | src/components/GitHubFolderManager.jsx:83 | "back" from a single segment, or from the root `""`, enters the root |
| `Paths.ParentOfCrumb` | src/components/GitHubFolderManager.jsx:168 | "back" from the folder of breadcrumb `i` enters the folder of breadcrumb `i - 1` |
| `Paths.CrumbPath` | src/components/GitHubFolderManager.jsx:168 | for breadcrumbs (non-empty segments), the folder reached from breadcrumb `i` has breadcrumbs `0..i` |
| `Paths.NewFolderPath` | src/components/GitHubFolderManager.jsx:101 | the new folder's file ends in `/README.md`, and its parent is `name` at the root or `currentFolder/name` otherwise |
| `Paths.NewFolderInCurrent` | src/components/GitHubFolderManager.jsx:101 | for a name without `/`, two steps back from the placeholder reach the folder it was created in |
| `Listing.NormaliseItems` | src/components/GitHubFolderManager.jsx:41-47 | `map` gives one entry per item, in the same order, copying name/type/path/size/download_url/sha |
| `Listing.Normalise` | src/components/GitHubFolderManager.jsx:41-55 | an array response gives one entry per item in order; a single object gives exactly one entry copying its fields |
| `Listing.NameLeTotal` | src/components/GitHubFolderManager.jsx:60 | any two names are comparable |
| `Listing.NameLeTransitive` | src/components/GitHubFolderManager.jsx:60 | the name order is transitive |
| `Listing.NameLeAntisymmetric` | src/components/GitHubFolderManager.jsx:60 | two names that each sort before the other are equal |
| `Listing.NameCompare` | src/components/GitHubFolderManager.jsx:60 | the `localeCompare` stand-in is negative, zero or positive exactly as the first name sorts before, equals, or sorts after the second |
| `Listing.Compare` | src/components/GitHubFolderManager.jsx:58-63 | the comparator is zero exactly for entries of one type and one name; for one type it is at most zero exactly in name order; for two types it is negative exactly when the first is `dir` |
| `Listing.CompareAgrees` | src/components/GitHubFolderManager.jsx:58-63 | wherever the source comparator is consistent (same type, or one is `dir`), "at most zero" coincides with the model's order |
| `Listing.CompareInconsistent` | src/components/GitHubFolderManager.jsx:58-63 | for two distinct types that are not `dir`, the comparator calls each entry greater than the other |
| `Listing.EntryLeTotal` | src/components/GitHubFolderManager.jsx:58-63 | any two entries are comparable in the list order |
| `Listing.EntryLeTransitive` | src/components/GitHubFolderManager.jsx:58-63 | the list order is transitive |
| `Listing.SortedPairwise` | src/components/GitHubFolderManager.jsx:58-63 | a list sorted between neighbours is sorted between any two positions |
| `Listing.FoldersFirst` | src/components/GitHubFolderManager.jsx:58-63 | in a sorted list no non-`dir` entry comes before a `dir` entry |
| `Listing.SameKindByName` | src/components/GitHubFolderManager.jsx:58-63 | in a sorted list any two entries of one type are in name order |
| `Listing.SwapDown` | src/components/GitHubFolderManager.jsx:58 | exchanging two neighbours changes only them and keeps the same entries |
| `Listing.InsertDown` | src/components/GitHubFolderManager.jsx:58 | moving `a[i]` into the sorted prefix leaves `a[..i+1]` sorted, the rest untouched, and the same entries |
| `Listing.SortEntries` | src/components/GitHubFolderManager.jsx:58-63 | the in-place sort leaves the array sorted, folders first then by name, and a permutation of what it was |
| `Listing.SortedListing` | src/components/GitHubFolderManager.jsx:41-63 | the list shown for a response is sorted and holds exactly the normalised entries |
| `Common.FirstTruthy` | src/App.jsx:65 | a JavaScript or-chain of optional strings ending in a fallback gives the first non-empty candidate, or the fallback when there is none |
| `FolderManager.ErrorText` | src/components/GitHubFolderManager.jsx:68 | the listing error shows the server's message if non-empty, else the error's message, else `undefined` |
| `FolderManager.ClickAction` | src/components/GitHubFolderManager.jsx:88-94 | a click enters exactly the `dir` entries and selects exactly the `file` entries whose name ends with `.md` (case-sensitive), each by its `path`; anything else does nothing |
| `FolderManager.FileIcon` | src/components/GitHubFolderManager.jsx:134-143 | the folder icon shows exactly on `dir` entries; any other entry shows the icon of its extension (`.md`, `.js`/`.jsx`, `.css`, `.json`, `.html`, `.txt`, case-sensitive), which exclude one another, and the generic icon exactly when none matches |
| `FolderManager.IconMatchesClick` | src/components/GitHubFolderManager.jsx:134-143 | the folder icon shows exactly on entries a click enters; every selectable entry shows the Markdown icon; a `symlink` named `*.md` shows it but is inert |
| `FolderManager.GitHubFolderManager.constructor` | src/components/GitHubFolderManager.jsx:6-18 | on mount the list is empty with no error, the breadcrumbs are `currentPath`'s segments, and the current folder is the one holding the file |
| `FolderManager.GitHubFolderManager.PathEffect` | src/components/GitHubFolderManager.jsx:13-18 | the effect sets the breadcrumbs to the segments of `currentPath` and the current folder to all but the last segment |
| `FolderManager.GitHubFolderManager.ReceiveProps` | src/components/GitHubFolderManager.jsx:13-18 | breadcrumbs and current folder change only when the `currentPath` property changes |
| `FolderManager.GitHubFolderManager.ListRepositoryFiles` | src/components/GitHubFolderManager.jsx:21-73 | an incomplete config sets the config error, sends nothing and keeps the list; otherwise one GET for the path, then success shows the sorted listing with no error, and failure shows an empty list and a non-empty error; never left loading |
| `FolderManager.GitHubFolderManager.EnterFolder` | src/components/GitHubFolderManager.jsx:76-79 | the current folder becomes the requested path whether the fetch succeeds or fails; the breadcrumbs are untouched |
| `FolderManager.GitHubFolderManager.GoBack` | src/components/GitHubFolderManager.jsx:82-85 | enters the current folder with its last `/`-segment dropped |
| `FolderManager.GitHubFolderManager.ClickRoot` | src/components/GitHubFolderManager.jsx:161 | the root link enters `""` |
| `FolderManager.GitHubFolderManager.ClickCrumb` | src/components/GitHubFolderManager.jsx:168 | breadcrumb `i` enters the join of breadcrumbs `0..i` |
| `FolderManager.GitHubFolderManager.Refresh` | src/components/GitHubFolderManager.jsx:150 | refresh lists the current folder again |
| `FolderManager.GitHubFolderManager.HandleItemClick` | src/components/GitHubFolderManager.jsx:88-94 | a folder click enters `item.path`; a Markdown file click selects `item.path` and sends nothing; any other click changes nothing |
| `FolderManager.GitHubFolderManager.CreateNewFolder` | src/components/GitHubFolderManager.jsx:97-122 | an empty or cancelled name does nothing; otherwise one PUT of the placeholder file with no config check, then a relisting of the current folder and a success alert, or a failure alert and no relisting |
| `Config.IsComplete` | src/App.jsx:24 | the save and list guard passes exactly when token, owner and repository are all non-empty |
| `Config.EditCompleteness` | src/App.jsx:73-79 | editing the path or commit message never changes whether the guard passes; clearing a required setting makes it fail |
| `Config.With` | src/App.jsx:73-79 | `{...prev, [name]: value}` sets the named field and keeps every other field |
| `MarkdownApp.ShaFromLookup` | src/App.jsx:39-50 | the write carries a `sha` exactly when the existence check returned a file: that file's `sha`; any failed read, and a folder's array, give none (create) |
| `MarkdownApp.SaveErrorText` | src/App.jsx:65 | the failure text is the first non-empty of the server's message and the error's message, else `未知错误`; never empty |
| `Common.ContainsIffOccurs` | src/App.jsx:201 | `includes` holds exactly when the word occurs at some index |
| `MarkdownApp.ShownAsSuccess` | src/App.jsx:201 | the status is drawn as a success exactly when `成功` occurs in it at some index |
| `MarkdownApp.SuccessShownAsSuccess` | src/App.jsx:201 | `保存成功！` is drawn as a success |
| `MarkdownApp.ConfigWarningShownAsError` | src/App.jsx:201 | the missing-configuration warning is drawn as an error |
| `MarkdownApp.SavingShownAsError` | src/App.jsx:201 | the in-progress message is drawn as an error |
| `MarkdownApp.SaveStatus` | src/App.jsx:62-65 | a save's status is `保存成功！` exactly when the write succeeded; a failure's status starts with `保存失败: ` and goes on with a non-empty text |
| `MarkdownApp.SaveStatusShown` | src/App.jsx:62-65 | after a save the status is drawn as a success exactly when the write succeeded or the error text contains `成功` |
| `MarkdownApp.App.constructor` | src/App.jsx:8-19 | the initial document, settings (`document.md`, `Update document.md`), cleared flags and empty status |
| `MarkdownApp.App.HandleSaveToGithub` | src/App.jsx:23-70 | an incomplete config sets the config status, sends nothing and leaves the busy flags; otherwise one GET of the configured path, one PUT with exactly the configured owner/repo/path/message, the document and the looked-up `sha`, the status from the write's outcome, and both busy flags cleared |
| `MarkdownApp.App.HandleConfigChange` | src/App.jsx:73-79 | only the named setting changes |
| `MarkdownApp.App.HandlePathSelect` | src/App.jsx:82-88 | the save path becomes the selection, the other settings are kept, the folder manager closes |
| `MarkdownApp.App.Browse` | src/App.jsx:91-98 | the folder manager opens only with token, owner and repository set; otherwise the config status is set and the dialog is left as it was |
| `MarkdownApp.App.CloseFolderManager` | src/App.jsx:226-262 | the dialog's close, cancel and confirm buttons and its backdrop close it |
| `MarkdownApp.App.SetMarkdownContent` | src/App.jsx:110-114 | the editor's change handler stores the new text |

## Left out

- The HTTP client (`@octokit/core`) is not modelled. Each GET or PUT is a request value returned by the method, and its response is a parameter.
- Responses are applied atomically. The code does not discard a stale response: whichever arrives last writes the list. The model does not capture two requests in flight at once.
- The content encoding `btoa(unescape(encodeURIComponent(...)))` is base64 (RFC 4648 section 4) of the text's UTF-8 bytes (RFC 3629). It is the symbolic value `Api.Payload.Base64Utf8(text)`. The code has no decoder, so there is no round trip to state.
- `localeCompare` depends on the locale. The model uses code-point lexicographic order (`Listing.NameLe`).
- Listing.SortEntries: for two entries of distinct types that are both not `dir` (say a `file` and a `symlink`), the source comparator fixes no order and the result is up to the JavaScript engine. The model orders them by name (see `Listing.CompareInconsistent`).
- `formatFileSize` uses floating point (`Math.log`, `toFixed`) and is not modelled.
- Conflict detection on a stale `sha` happens on the server. The code treats a conflict like any other failed write, and so does the model.
- `src/components/MarkdownEditor.jsx` is not part of this model: it wraps a third-party editor and its only logic is `newValue || ''`. `App.SetMarkdownContent` takes the text it hands over.
- `vite.config.js` is build configuration.
- Rendering, CSS, `console` logging and the `prompt`/`alert` dialogs are not modelled. The prompt's answer is a parameter of `CreateNewFolder`, and the alert text is returned.
- The `loading` and `isSaving`/`isLoading` intermediate values (`true` while a request is pending) are set but never observable, because requests are atomic here. Only their final values are stated.
- Non-string `message` fields in error responses are not modelled.
- MarkdownApp.App.HandleSaveToGithub: strings are sequences of Unicode scalar values, so a document holding an unpaired UTF-16 surrogate is outside the model. For such a document `encodeURIComponent` throws a `URIError` after the GET and before the PUT, no PUT is sent, and the status becomes `保存失败: ` followed by the error's message (`URI malformed` in common engines).
- FolderManager.GitHubFolderManager.CreateNewFolder: for the same reason a folder name holding an unpaired surrogate is outside the model. For such a name the encoding throws before the PUT, no PUT is sent and the failure alert is shown.
