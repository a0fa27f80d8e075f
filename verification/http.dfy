/**
 * What the client sends to and reads from the GitHub REST API: responses as a
 * status code with the decoded content the code reads, requests as a URL with
 * the basic-auth credentials, and the URLs the client builds.
 */
module Http {
  import opened Options
  import opened Text

  /** A JSON scalar in a listing item, as far as the client looks at it; any other JSON value keeps its `str()`. */
  datatype Value = VString(s: string) | VBool(b: bool) | VNull | VOther(repr: string)

  /** Python's `str(v)`, which an f-string applies to the value it interpolates. */
  function Str(v: Value): string {
    match v
    case VString(s) => s
    case VBool(b) => if b then "True" else "False"
    case VNull => "None"
    case VOther(r) => r
  }

  /** One response header: its name and its value. */
  type Header = (string, string)

  /** A response: its status code and the part of it the client reads. */
  datatype Response<T> = Response(status: int, content: T)

  /** An authenticated GET: the URL and the basic-auth pair (username, token). */
  datatype Request = Get(url: string, user: string, token: string)

  const StatusOk := 200

  const UserUrl := "https://api.github.com/user"
  const UserBase := "https://api.github.com/users/"
  const OrgBase := "https://api.github.com/orgs/"
  /** The owner field and the path after it, common to both listing templates. */
  const ReposPath := "{0}/repos"
  const UserReposUrl := UserBase + ReposPath
  const OrgReposUrl := OrgBase + ReposPath
  /** The query appended to a listing template; `{1}` is the page number, used twice. */
  const PageQuery := "?page={1}&per_page={1}00"
  /** The `params` of a commit-list request, as the HTTP library encodes them. */
  const CommitsQuery := "?page=1&per_page=1000"

  /** The two listing templates the client formats: a user's and an organisation's repositories. */
  predicate IsReposTemplate(t: string) {
    t == UserReposUrl || t == OrgReposUrl
  }

  function OwnerBase(t: string): string {
    if t == UserReposUrl then UserBase else OrgBase
  }

  /** Brace-free text around one positional field. */
  lemma FieldBetween(p: string, c: char, q: string, args: seq<string>)
    requires '{' !in p && '}' !in p && '{' !in q && '}' !in q
    requires IsDigit(c) && c as int - '0' as int < |args|
    ensures Format(p + (['{', c, '}'] + q), args) == Some(p + (args[c as int - '0' as int] + q))
  {
    FormatPlain(q, args);
    FormatPlainField(p, c, q, args);
  }

  lemma BaseFormat(base: string, args: seq<string>)
    requires '{' !in base && '}' !in base && |args| == 2
    ensures Format(base + ReposPath, args) == Some(base + (args[0] + "/repos"))
  {
    assert ReposPath == ['{', '0', '}'] + "/repos";
    FieldBetween(base, '0', "/repos", args);
  }

  /** A listing template formats to the owner's listing URL. */
  lemma TemplateFormat(t: string, args: seq<string>)
    requires IsReposTemplate(t) && |args| == 2
    ensures Format(t, args) == Some(OwnerBase(t) + (args[0] + "/repos"))
  {
    if t == UserReposUrl {
      BaseFormat(UserBase, args);
    } else {
      BaseFormat(OrgBase, args);
    }
  }

  /** The page query formats with the second argument in both places. */
  lemma QueryFormat(args: seq<string>)
    requires |args| == 2
    ensures Format(PageQuery, args) == Some("?page=" + (args[1] + ("&per_page=" + (args[1] + "00"))))
  {
    PageQueryParts();
    PageFormat(PageQuery, args);
  }

  lemma PageQueryParts()
    ensures PageQuery == "?page=" + ("{1}" + "&per_page={1}00")
  {
  }

  lemma PageFormat(q: string, args: seq<string>)
    requires |args| == 2
    requires q == "?page=" + ("{1}" + "&per_page={1}00")
    ensures Format(q, args) == Some("?page=" + (args[1] + ("&per_page=" + (args[1] + "00"))))
  {
    PerPageFormat(args);
    FormatPlainField("?page=", '1', "&per_page={1}00", args);
  }

  lemma PerPageFormat(args: seq<string>)
    requires |args| == 2
    ensures Format("&per_page={1}00", args) == Some("&per_page=" + (args[1] + "00"))
  {
    assert "&per_page={1}00" == "&per_page=" + ("{1}" + "00");
    FieldBetween("&per_page=", '1', "00", args);
  }

  /** The URL of page `page` of `owner`'s listing: what `response_url.format(name, cur_page)` yields, by PageUrlIsFormat. */
  function PageUrl(t: string, owner: string, page: nat): string
    requires IsReposTemplate(t)
  {
    (OwnerBase(t) + (owner + "/repos")) + ("?page=" + (Dec(page) + ("&per_page=" + (Dec(page) + "00"))))
  }

  /** Formatting `t + PageQuery` with an owner and a page number never fails and yields that page's URL. */
  lemma PageUrlIsFormat(t: string, owner: string, page: nat)
    requires IsReposTemplate(t)
    ensures Format(t + PageQuery, [owner, Dec(page)]) == Some(PageUrl(t, owner, page))
  {
    var args := [owner, Dec(page)];
    TemplateFormat(t, args);
    QueryFormat(args);
    FormatAppend(t, PageQuery, args);
  }

  lemma Reassociate(base: string, owner: string, d: string, d100: string)
    requires d100 == d + "00"
    ensures (base + (owner + "/repos")) + ("?page=" + (d + ("&per_page=" + (d + "00"))))
         == base + owner + "/repos?page=" + d + "&per_page=" + d100
  {
  }

  /**
   * The page number is substituted into `per_page` as well: page p asks for 100 * p
   * items per page (100, 200, 300, ...), not a fixed page size.
   */
  lemma PerPageGrowsWithPage(t: string, owner: string, page: nat)
    requires IsReposTemplate(t) && page >= 1
    ensures PageUrl(t, owner, page)
         == OwnerBase(t) + owner + "/repos?page=" + Dec(page) + "&per_page=" + Dec(100 * page)
  {
    HundredfoldDec(page);
    Reassociate(OwnerBase(t), owner, Dec(page), Dec(100 * page));
  }

  /** The commit-list URL of one repository of an organisation, with its query parameters. */
  function CommitsUrl(org: string, repo: string): string {
    "https://api.github.com/repos/" + org + "/" + repo + "/commits" + CommitsQuery
  }
}
