/** The editor application: the GitHub settings form, saving the document
    (create or update, decided by a prior read of the file's `sha`), and the
    button that opens the folder manager. Every response is a parameter and is
    applied at once. */
module MarkdownApp {
  import opened Common
  import opened Api
  import opened Config

  const ConfigIncomplete := "请填写完整的GitHub配置信息"
  const SavingStatus := "正在保存..."
  const SaveSucceeded := "保存成功！"
  const SaveFailedPrefix := "保存失败: "
  const UnknownError := "未知错误"
  const SuccessMark := "成功"

  const WelcomeDocument := "# 欢迎使用Markdown编辑器\n\n开始编写你的Markdown文档吧！\n\n## 功能特点\n\n- 实时预览\n- 支持保存到GitHub仓库\n- 响应式设计\n\n```javascript\nconsole.log(\"Hello, Markdown!\");\n```"

  /** The version token of what the existence check found: the file's `sha`
      when the read returned a file, nothing when it returned a folder's
      array (whose `sha` is undefined), and nothing for ANY failed read, not
      only a missing file. */
  function ShaFromLookup(lookup: Outcome<Contents>): (sha: Option<string>)
    ensures lookup.Fail? ==> sha == None
    ensures lookup.Ok? && lookup.data.Directory? ==> sha == None
    ensures lookup.Ok? && lookup.data.Single? ==> sha == Some(lookup.data.item.sha)
    ensures sha.Some? <==> lookup.Ok? && lookup.data.Single?
  {
    match lookup
    case Ok(Single(item)) => Some(item.sha)
    case Ok(Directory(_)) => None
    case Fail(_) => None
  }

  /** `error.response?.data?.message || error.message || '未知错误'`. */
  function SaveErrorText(e: ErrorInfo): (r: string)
    ensures r != ""
    ensures Truthy(e.responseMessage) ==> r == e.responseMessage.value
    ensures !Truthy(e.responseMessage) && Truthy(e.message) ==> r == e.message.value
    ensures !Truthy(e.responseMessage) && !Truthy(e.message) ==> r == UnknownError
  {
    var candidates := [e.responseMessage, e.message];
    assert candidates[0] == e.responseMessage && candidates[1] == e.message;
    FirstTruthy(candidates, UnknownError)
  }

  /** The status line is drawn as a success exactly when it contains
      `成功`. */
  predicate ShownAsSuccess(status: string)
    ensures ShownAsSuccess(status) <==> exists i: nat :: OccursAt(status, SuccessMark, i)
  {
    ContainsIffOccurs(status, SuccessMark);
    Contains(status, SuccessMark)
  }

  /** The success message is drawn as a success. */
  lemma SuccessShownAsSuccess()
    ensures ShownAsSuccess(SaveSucceeded)
  {
    var s := SaveSucceeded;
    assert s[2..][..2] == SuccessMark;
    assert Contains(s[2..], SuccessMark);
    assert s[1..][1..] == s[2..];
    assert Contains(s[1..], SuccessMark);
  }

  /** The configuration warning is drawn as an error. */
  lemma ConfigWarningShownAsError()
    ensures !ShownAsSuccess(ConfigIncomplete)
  {
    assert SuccessMark[0] !in ConfigIncomplete;
    NotContainsWithoutFirstChar(ConfigIncomplete, SuccessMark);
  }

  /** The in-progress message is drawn as an error. */
  lemma SavingShownAsError()
    ensures !ShownAsSuccess(SavingStatus)
  {
    assert SuccessMark[0] !in SavingStatus;
    NotContainsWithoutFirstChar(SavingStatus, SuccessMark);
  }

  /** The status a save that passed the configuration check ends with: the
      success message exactly when the write succeeded, otherwise the failure
      prefix followed by the error's text. */
  function SaveStatus(write: Outcome<()>): (r: string)
    ensures r == SaveSucceeded <==> write.Ok?
    ensures write.Fail? ==> StartsWith(r, SaveFailedPrefix) && |r| > |SaveFailedPrefix|
  {
    assert SaveFailedPrefix[2] != SaveSucceeded[2];
    assert forall t :: (SaveFailedPrefix + t)[2] == SaveFailedPrefix[2];
    match write
    case Ok(_) => SaveSucceeded
    case Fail(e) => SaveFailedPrefix + SaveErrorText(e)
  }

  /** After a save the status is drawn as a success exactly when the write
      succeeded or the error text itself contains `成功` (the prefix
      `保存失败: ` cannot supply it). */
  lemma SaveStatusShown(write: Outcome<()>)
    ensures ShownAsSuccess(SaveStatus(write)) <==>
              write.Ok? || Contains(SaveErrorText(write.err), SuccessMark)
  {
    if write.Ok? {
      SuccessShownAsSuccess();
    } else {
      ContainsAfterPrefix(SaveFailedPrefix, SaveErrorText(write.err), SuccessMark);
    }
  }

  /** The application's state. */
  class App {
    var markdownContent: string
    var config: GithubConfig
    var isSaving: bool
    var saveStatus: string
    var isLoading: bool
    var showFolderManager: bool

    constructor ()
      ensures markdownContent == WelcomeDocument && config == Initial
      ensures !isSaving && !isLoading && !showFolderManager && saveStatus == ""
    {
      markdownContent := WelcomeDocument;
      config := Initial;
      isSaving := false;
      saveStatus := "";
      isLoading := false;
      showFolderManager := false;
    }

    /** `handleSaveToGithub()`. `lookup` answers the existence check and
        `write` the write; the requests actually sent are returned. With an
        incomplete configuration nothing is sent and only the status changes.
        Otherwise the file's `sha` is read (any read failure means "create"),
        the document is written with exactly the configured coordinates,
        message and that `sha`, the status reports the write's outcome, and
        both busy flags end cleared. */
    method HandleSaveToGithub(lookup: Outcome<Contents>, write: Outcome<()>)
      returns (get: Option<GetRequest>, put: Option<PutRequest>)
      modifies this`isSaving, this`isLoading, this`saveStatus
      ensures !IsComplete(config) ==>
                get == None && put == None && saveStatus == ConfigIncomplete &&
                isSaving == old(isSaving) && isLoading == old(isLoading)
      ensures IsComplete(config) ==>
                && get == Some(GetRequest(config.owner, config.repo, config.path))
                && put == Some(PutRequest(config.owner, config.repo, config.path, config.message,
                                          Base64Utf8(markdownContent), ShaFromLookup(lookup)))
                && !isSaving && !isLoading
                && saveStatus == SaveStatus(write)
    {
      if !IsComplete(config) {
        saveStatus := ConfigIncomplete;
        return None, None;
      }
      isSaving := true;
      isLoading := true;
      saveStatus := SavingStatus;

      var sha: Option<string> := None;
      get := Some(GetRequest(config.owner, config.repo, config.path));
      match lookup {
        case Ok(data) =>
          if data.Single? {
            sha := Some(data.item.sha);
          } else {
            sha := None;
          }
        case Fail(_) =>
      }

      put := Some(PutRequest(config.owner, config.repo, config.path, config.message,
                             Base64Utf8(markdownContent), sha));
      match write {
        case Ok(_) =>
          saveStatus := SaveSucceeded;
        case Fail(e) =>
          saveStatus := SaveFailedPrefix + SaveErrorText(e);
      }
      isSaving := false;
      isLoading := false;
    }

    /** `handleConfigChange(e)`: the input named `name` takes `value`; every
        other setting is kept. */
    method HandleConfigChange(name: Field, value: string)
      modifies this`config
      ensures Get(config, name) == value
      ensures forall g :: g != name ==> Get(config, g) == Get(old(config), g)
    {
      config := With(config, name, value);
    }

    /** `handlePathSelect(p)`: the chosen file becomes the save path and the
        folder manager closes; the other settings are kept. */
    method HandlePathSelect(selectedPath: string)
      modifies this`config, this`showFolderManager
      ensures config == old(config).(path := selectedPath)
      ensures !showFolderManager
    {
      config := With(config, Path, selectedPath);
      showFolderManager := false;
    }

    /** The browse button: opens the folder manager only with a complete
        configuration, otherwise reports the missing settings. */
    method Browse()
      modifies this`saveStatus, this`showFolderManager
      ensures IsComplete(config) ==> showFolderManager && saveStatus == old(saveStatus)
      ensures !IsComplete(config) ==>
                saveStatus == ConfigIncomplete && showFolderManager == old(showFolderManager)
    {
      if !IsComplete(config) {
        saveStatus := ConfigIncomplete;
        return;
      }
      showFolderManager := true;
    }

    /** The modal's close, cancel and confirm buttons and its backdrop all
        just close it. */
    method CloseFolderManager()
      modifies this`showFolderManager
      ensures !showFolderManager
    {
      showFolderManager := false;
    }

    /** The editor's change handler stores the new text. */
    method SetMarkdownContent(value: string)
      modifies this`markdownContent
      ensures markdownContent == value
    {
      markdownContent := value;
    }
  }
}
