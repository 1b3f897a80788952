/** `resolve_front_url` (`tweets2cash/front/templatetags/functions.py`):
    an absolute link to a front-end page of the "website" site. */
module FrontFunctions {
  import opened Wrappers
  import opened FrontUrls

  datatype Site = Site(scheme: string, domain: string)

  /** The "website" entry of the `SITES` setting. */
  const Website: Site := Site("https", "localhost.com")

  /** `site.scheme and "{0}:".format(site.scheme) or ""`. */
  function SchemePrefix(scheme: string): (p: string)
    ensures scheme == "" ==> p == ""
    ensures scheme != "" ==> p == scheme + ":"
  {
    if scheme != "" then scheme + ":" else ""
  }

  datatype ResolveError = KeyError | FormatIndexError

  /** The scheme prefix, "//", the domain, then the page's path with its
      placeholders filled; an unknown page fails at the table lookup. */
  function Resolve(site: Site, urls: map<string, Template>, page: string, args: seq<string>): (r: Result<string, ResolveError>)
    ensures page !in urls ==> r == Err(KeyError)
    ensures page in urls ==> (r.Ok? <==> ArgumentsSuffice(urls[page], args))
    ensures r.Ok? ==>
              page in urls && r.value == SchemePrefix(site.scheme) + "//" + site.domain + Format(urls[page], args).value
  {
    if page !in urls then Err(KeyError)
    else
      match Format(urls[page], args)
      case Err(_) => Err(FormatIndexError)
      case Ok(path) => Ok(SchemePrefix(site.scheme) + "//" + site.domain + path)
  }

  lemma HomeOnWebsite()
    ensures Resolve(Website, Urls, "home", []) == Ok("https://localhost.com/")
  {
    LiteralPath("/");
    assert Format(Urls["home"], []) == Ok("/");
    assert SchemePrefix(Website.scheme) == "https:";
    assert Website.domain == "localhost.com";
    assert "https:" + "//" + "localhost.com" + "/" == "https://localhost.com/";
  }

  /** The links in the account mails are the page's path followed by
      the token. */
  lemma TokenLinks(page: string, token: string)
    requires page in PagesWithToken
    ensures Resolve(Website, Urls, page, [token]) == Ok("https://localhost.com/" + page + "/" + token)
  {
    TokenPageTemplate(page);
    var path := "/" + page + "/";
    FormatOnePlaceholder(path, [token]);
    WebsiteRoot();
    var root := "https://localhost.com";
    assert "https://localhost.com/" == root + "/";
    assert root + (path + token) == root + "/" + page + "/" + token;
  }

  lemma WebsiteRoot()
    ensures SchemePrefix(Website.scheme) + "//" + Website.domain == "https://localhost.com"
  {
  }

  /** A token page without its argument cannot be resolved. */
  lemma MissingTokenFails(page: string)
    requires page in PagesWithToken
    ensures Resolve(Website, Urls, page, []) == Err(FormatIndexError)
  {
    assert Urls[page][1].Placeholder?;
  }
}
