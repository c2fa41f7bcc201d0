/** The `githubConfig` record held by the application and passed to the
    folder manager as a property. */
module Config {

  datatype GithubConfig = GithubConfig(
    token: string,
    owner: string,
    repo: string,
    path: string,
    message: string)

  /** The `name` attributes of the five form inputs. */
  datatype Field = Token | Owner | Repo | Path | Message

  /** The state's initial value. */
  const Initial := GithubConfig("", "", "", "document.md", "Update document.md")

  function Get(c: GithubConfig, f: Field): string
  {
    match f
    case Token => c.token
    case Owner => c.owner
    case Repo => c.repo
    case Path => c.path
    case Message => c.message
  }

  /** `{ ...c, [f]: v }`: the named field takes the new value and every other
      field keeps its old one. */
  function With(c: GithubConfig, f: Field, v: string): (r: GithubConfig)
    ensures Get(r, f) == v
    ensures forall g :: g != f ==> Get(r, g) == Get(c, g)
  {
    match f
    case Token => c.(token := v)
    case Owner => c.(owner := v)
    case Repo => c.(repo := v)
    case Path => c.(path := v)
    case Message => c.(message := v)
  }

  /** The settings that must be filled in before GitHub is contacted. */
  predicate Required(f: Field)
  {
    f == Token || f == Owner || f == Repo
  }

  /** `githubConfig.token && githubConfig.owner && githubConfig.repo`: the
      guard both components apply before talking to GitHub. It holds exactly
      when every required setting is non-empty. */
  predicate IsComplete(c: GithubConfig)
    ensures IsComplete(c) <==> forall f :: Required(f) ==> Get(c, f) != ""
  {
    assert Get(c, Token) == c.token && Get(c, Owner) == c.owner && Get(c, Repo) == c.repo;
    c.token != "" && c.owner != "" && c.repo != ""
  }

  /** Editing the path or the commit message never changes whether the
      configuration is complete; clearing a required setting makes it
      incomplete, and filling one in keeps the other two deciding. */
  lemma EditCompleteness(c: GithubConfig, f: Field, v: string)
    ensures !Required(f) ==> (IsComplete(With(c, f, v)) <==> IsComplete(c))
    ensures Required(f) && v == "" ==> !IsComplete(With(c, f, v))
    ensures Required(f) && v != "" ==>
              (IsComplete(With(c, f, v)) <==> forall g :: Required(g) && g != f ==> Get(c, g) != "")
  {
  }
}
