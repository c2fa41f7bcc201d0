/** The repository file browser shown in the "choose a save location"
    dialog: it lists one folder at a time, enters folders, goes back, jumps
    by breadcrumb, selects Markdown files and creates folders. Each request's
    response is a parameter and is applied at once: the model treats every
    fetch as atomic. */
module FolderManager {
  import opened Common
  import opened Api
  import opened Config
  import opened Paths
  import opened Listing

  const ConfigMissing := "请先配置GitHub信息"
  const ListFailedPrefix := "获取文件列表失败: "
  const CreateFailedPrefix := "创建文件夹失败: "
  const MarkdownSuffix := ".md"

  /** `${error.response?.data?.message || error.message}`: the server's
      message when it gave a non-empty one, else the error's own message,
      which a template literal prints as "undefined" when it is missing. */
  function ErrorText(e: ErrorInfo): (r: string)
    ensures Truthy(e.responseMessage) ==> r == e.responseMessage.value
    ensures !Truthy(e.responseMessage) ==> r == if e.message.Some? then e.message.value else "undefined"
  {
    FirstTruthy([e.responseMessage], if e.message.Some? then e.message.value else "undefined")
  }

  /** What a click on a listed entry does. */
  datatype Click = EnterDir(path: string) | SelectFile(path: string) | Ignore

  /** A folder is entered, a `file` whose name ends in `.md` (case-sensitive)
      is selected as the save path, and every other entry is inert. */
  function ClickAction(item: Entry): (c: Click)
    ensures c.EnterDir? <==> item.kind == Dir
    ensures c.SelectFile? <==> item.kind == File && EndsWith(item.name, MarkdownSuffix)
    ensures !c.Ignore? ==> c.path == item.path
  {
    if item.kind == Dir then EnterDir(item.path)
    else if item.kind == File && EndsWith(item.name, MarkdownSuffix) then SelectFile(item.path)
    else Ignore
  }

  /** The icon shown beside an entry: the folder icon for a folder and
      only for one; otherwise the icon of the name's extension, and a generic
      icon for any other name. The extensions exclude one another, so the
      order in which they are tried decides nothing. */
  function FileIcon(kind: Kind, name: string): (icon: string)
    ensures icon == "📁" <==> kind == Dir
    ensures kind != Dir && EndsWith(name, MarkdownSuffix) ==> icon == "📝"
    ensures kind != Dir && (EndsWith(name, ".js") || EndsWith(name, ".jsx")) ==> icon == "📄"
    ensures kind != Dir && EndsWith(name, ".css") ==> icon == "🎨"
    ensures kind != Dir && EndsWith(name, ".json") ==> icon == "📋"
    ensures kind != Dir && EndsWith(name, ".html") ==> icon == "🌐"
    ensures kind != Dir && EndsWith(name, ".txt") ==> icon == "📃"
    ensures icon == "📎" <==>
              kind != Dir && !EndsWith(name, MarkdownSuffix) && !EndsWith(name, ".js") &&
              !EndsWith(name, ".jsx") && !EndsWith(name, ".css") && !EndsWith(name, ".json") &&
              !EndsWith(name, ".html") && !EndsWith(name, ".txt")
  {
    EndsWithChar(name, MarkdownSuffix, 0);
    EndsWithChar(name, ".js", 0);
    EndsWithChar(name, ".jsx", 0);
    EndsWithChar(name, ".css", 0);
    EndsWithChar(name, ".json", 0);
    EndsWithChar(name, ".html", 0);
    EndsWithChar(name, ".txt", 0);
    EndsWithChar(name, ".js", 1);
    EndsWithChar(name, ".css", 1);
    if kind == Dir then "📁"
    else if EndsWith(name, MarkdownSuffix) then "📝"
    else if EndsWith(name, ".js") || EndsWith(name, ".jsx") then "📄"
    else if EndsWith(name, ".css") then "🎨"
    else if EndsWith(name, ".json") then "📋"
    else if EndsWith(name, ".html") then "🌐"
    else if EndsWith(name, ".txt") then "📃"
    else "📎"
  }

  /** The icon agrees with the click rule: exactly the entries that a click
      enters show the folder icon, and every entry a click selects shows the
      Markdown icon. The converse fails: a `symlink` named `x.md` shows the
      Markdown icon but a click on it does nothing. */
  lemma IconMatchesClick(e: Entry)
    ensures FileIcon(e.kind, e.name) == "📁" <==> ClickAction(e).EnterDir?
    ensures ClickAction(e).SelectFile? ==> FileIcon(e.kind, e.name) == "📝"
    ensures e.kind == Symlink && EndsWith(e.name, MarkdownSuffix) ==>
              FileIcon(e.kind, e.name) == "📝" && ClickAction(e).Ignore?
  {
  }

  /** The component's state. `config` and `currentPath` are the properties
      the application passes in; the rest is the component's own state. */
  class GitHubFolderManager {
    var config: GithubConfig
    var currentPath: string
    var files: seq<Entry>
    var currentFolder: string
    var loading: bool
    var error: string
    var breadcrumbs: seq<string>

    /** Between events the list is in display order, nothing is loading
        (fetches are atomic here), and the breadcrumbs are those of the
        current path property. */
    ghost predicate Valid()
      reads this
    {
      Sorted(files) && !loading && breadcrumbs == Segments(currentPath)
    }

    /** The state after one `listRepositoryFiles(path)` that found the list
        `before`, given the server's `response` and the `request` sent. */
    ghost predicate ListedAfter(before: seq<Entry>, path: string, response: Outcome<Contents>,
                                request: Option<GetRequest>)
      reads this
    {
      && (!IsComplete(config) ==> request == None && error == ConfigMissing && files == before)
      && (IsComplete(config) ==>
            && request == Some(GetRequest(config.owner, config.repo, path))
            && match response
               case Ok(data) => error == "" && multiset(files) == multiset(Normalise(data))
               case Fail(e) => files == [] && error == ListFailedPrefix + ErrorText(e))
    }

    /** Mounting: the initial state, then the effect on `currentPath`. No
        listing is fetched until the user asks for one. */
    constructor (config: GithubConfig, currentPath: string)
      ensures Valid()
      ensures this.config == config && this.currentPath == currentPath
      ensures files == [] && error == ""
      ensures breadcrumbs == Segments(currentPath)
      ensures currentFolder == InitialFolder(currentPath)
    {
      this.config := config;
      this.currentPath := currentPath;
      files := [];
      currentFolder := "";
      loading := false;
      error := "";
      breadcrumbs := [];
      new;
      PathEffect();
    }

    /** The effect on `currentPath`: breadcrumbs are its non-empty segments
        and the current folder is the one holding the last of them. */
    method PathEffect()
      modifies this`breadcrumbs, this`currentFolder
      ensures breadcrumbs == Segments(currentPath)
      ensures currentFolder == InitialFolder(currentPath)
    {
      var pathParts := Segments(currentPath);
      breadcrumbs := pathParts;
      currentFolder := Join(DropLast(pathParts));
    }

    /** A re-render with new properties. The effect runs only when
        `currentPath` changed; that is the only way breadcrumbs change. */
    method ReceiveProps(newConfig: GithubConfig, newPath: string)
      requires Valid()
      modifies this`config, this`currentPath, this`breadcrumbs, this`currentFolder
      ensures Valid()
      ensures config == newConfig && currentPath == newPath
      ensures newPath == old(currentPath) ==>
                breadcrumbs == old(breadcrumbs) && currentFolder == old(currentFolder)
      ensures newPath != old(currentPath) ==>
                breadcrumbs == Segments(newPath) && currentFolder == InitialFolder(newPath)
    {
      config := newConfig;
      if newPath != currentPath {
        currentPath := newPath;
        PathEffect();
      }
    }

    /** `listRepositoryFiles(path)`: with an incomplete configuration it only
        reports the fact. Otherwise it clears the error and fetches; success
        shows the listing in order, failure an empty list and a message. */
    method ListRepositoryFiles(path: string, response: Outcome<Contents>)
      returns (request: Option<GetRequest>)
      requires Valid()
      modifies this`files, this`loading, this`error
      ensures Valid()
      ensures ListedAfter(old(files), path, response, request)
    {
      if !IsComplete(config) {
        error := ConfigMissing;
        return None;
      }
      loading := true;
      error := "";
      request := Some(GetRequest(config.owner, config.repo, path));
      match response {
        case Ok(data) =>
          files := SortedListing(data);
        case Fail(e) =>
          error := ListFailedPrefix + ErrorText(e);
          files := [];
      }
      loading := false;
    }

    /** `enterFolder(folderPath)`: fetches the folder and makes it current
        whatever the fetch's outcome; a failed fetch leaves an empty listing
        at the attempted folder. Breadcrumbs are not touched. */
    method EnterFolder(folderPath: string, response: Outcome<Contents>)
      returns (request: Option<GetRequest>)
      requires Valid()
      modifies this`files, this`loading, this`error, this`currentFolder
      ensures Valid()
      ensures currentFolder == folderPath
      ensures ListedAfter(old(files), folderPath, response, request)
    {
      request := ListRepositoryFiles(folderPath, response);
      currentFolder := folderPath;
    }

    /** "Back": enters the current folder with its last segment dropped. */
    method GoBack(response: Outcome<Contents>) returns (request: Option<GetRequest>)
      requires Valid()
      modifies this`files, this`loading, this`error, this`currentFolder
      ensures Valid()
      ensures currentFolder == ParentOf(old(currentFolder))
      ensures ListedAfter(old(files), ParentOf(old(currentFolder)), response, request)
    {
      var parentPath := Join(DropLast(Split(currentFolder)));
      request := EnterFolder(parentPath, response);
    }

    /** A click on the root link enters the repository root. */
    method ClickRoot(response: Outcome<Contents>) returns (request: Option<GetRequest>)
      requires Valid()
      modifies this`files, this`loading, this`error, this`currentFolder
      ensures Valid()
      ensures currentFolder == ""
      ensures ListedAfter(old(files), "", response, request)
    {
      request := EnterFolder("", response);
    }

    /** A click on breadcrumb `index` enters the join of breadcrumbs
        `0..index`. */
    method ClickCrumb(index: nat, response: Outcome<Contents>) returns (request: Option<GetRequest>)
      requires Valid()
      requires index < |breadcrumbs|
      modifies this`files, this`loading, this`error, this`currentFolder
      ensures Valid()
      ensures currentFolder == CrumbPath(breadcrumbs, index)
      ensures ListedAfter(old(files), CrumbPath(breadcrumbs, index), response, request)
    {
      request := EnterFolder(Join(breadcrumbs[..index + 1]), response);
    }

    /** The refresh button lists the current folder again. */
    method Refresh(response: Outcome<Contents>) returns (request: Option<GetRequest>)
      requires Valid()
      modifies this`files, this`loading, this`error
      ensures Valid()
      ensures ListedAfter(old(files), currentFolder, response, request)
    {
      request := ListRepositoryFiles(currentFolder, response);
    }

    /** `handleItemClick(item)`: enters a folder, hands a Markdown file's path
        to the application (returned as `selected`), ignores anything else. */
    method HandleItemClick(item: Entry, response: Outcome<Contents>)
      returns (selected: Option<string>, request: Option<GetRequest>)
      requires Valid()
      modifies this`files, this`loading, this`error, this`currentFolder
      ensures Valid()
      ensures ClickAction(item).EnterDir? ==>
                selected == None && currentFolder == item.path &&
                ListedAfter(old(files), item.path, response, request)
      ensures ClickAction(item).SelectFile? ==>
                selected == Some(item.path) && request == None &&
                files == old(files) && error == old(error) && currentFolder == old(currentFolder)
      ensures ClickAction(item).Ignore? ==>
                selected == None && request == None &&
                files == old(files) && error == old(error) && currentFolder == old(currentFolder)
    {
      selected, request := None, None;
      if item.kind == Dir {
        request := EnterFolder(item.path, response);
      } else if item.kind == File && EndsWith(item.name, MarkdownSuffix) {
        selected := Some(item.path);
      }
    }

    /** `createNewFolder()`: `folderName` is what the prompt returned (`None`
        when cancelled). A folder is created by writing a placeholder
        `README.md` inside it; on success the current folder is listed
        again. The configuration is not checked first. */
    method CreateNewFolder(folderName: Option<string>, write: Outcome<()>, refresh: Outcome<Contents>)
      returns (put: Option<PutRequest>, get: Option<GetRequest>, alert: Option<string>)
      requires Valid()
      modifies this`files, this`loading, this`error
      ensures Valid()
      ensures !Truthy(folderName) ==>
                put == None && get == None && alert == None &&
                files == old(files) && error == old(error)
      ensures Truthy(folderName) ==>
                var name := folderName.value;
                put == Some(PutRequest(config.owner, config.repo,
                                       NewFolderPath(currentFolder, name),
                                       "创建文件夹: " + name,
                                       Base64Utf8("# " + name + "\n\n这是 " + name + " 文件夹的说明文件。"),
                                       None))
      ensures Truthy(folderName) && write.Ok? ==>
                alert == Some("文件夹 \"" + folderName.value + "\" 创建成功！") &&
                ListedAfter(old(files), currentFolder, refresh, get)
      ensures Truthy(folderName) && write.Fail? ==>
                alert == Some(CreateFailedPrefix + ErrorText(write.err)) && get == None &&
                files == old(files) && error == old(error)
    {
      put, get, alert := None, None, None;
      if !Truthy(folderName) {
        return;
      }
      var name := folderName.value;
      var newFolderPath := NewFolderPath(currentFolder, name);
      put := Some(PutRequest(config.owner, config.repo, newFolderPath,
                             "创建文件夹: " + name,
                             Base64Utf8("# " + name + "\n\n这是 " + name + " 文件夹的说明文件。"),
                             None));
      match write {
        case Ok(_) =>
          get := ListRepositoryFiles(currentFolder, refresh);
          alert := Some("文件夹 \"" + name + "\" 创建成功！");
        case Fail(e) =>
          alert := Some(CreateFailedPrefix + ErrorText(e));
      }
    }
  }
}
