/** The front-end URL table (`tweets2cash/front/urls.py`) and the
    `str.format` filling of its positional placeholders. A template is kept
    as its literal pieces and its `{n}` fields. */
module FrontUrls {
  import opened Wrappers
  import opened Strings

  datatype Segment = Lit(text: string) | Placeholder(index: nat)

  type Template = seq<Segment>

  /** `str.format` raises `IndexError` for a field past the arguments. */
  datatype FormatError = IndexError

  /** The template as written in the table. */
  function Render(t: Template): string
  {
    if |t| == 0 then ""
    else
      (match t[0]
       case Lit(s) => s
       case Placeholder(i) => "{" + NatToString(i) + "}") + Render(t[1..])
  }

  function PlaceholderCount(t: Template): nat
  {
    if |t| == 0 then 0 else (if t[0].Placeholder? then 1 else 0) + PlaceholderCount(t[1..])
  }

  predicate ArgumentsSuffice(t: Template, args: seq<string>)
  {
    forall k :: 0 <= k < |t| && t[k].Placeholder? ==> t[k].index < |args|
  }

  /** `template.format(*args)`: every `{n}` becomes `args[n]`; extra
      arguments are ignored. */
  function Format(t: Template, args: seq<string>): (r: Result<string, FormatError>)
    ensures r.Ok? <==> ArgumentsSuffice(t, args)
    ensures PlaceholderCount(t) == 0 ==> r == Ok(Render(t))
  {
    if |t| == 0 then Ok("")
    else
      var head: Result<string, FormatError> :=
        match t[0]
        case Lit(s) => Ok(s)
        case Placeholder(i) => if i < |args| then Ok(args[i]) else Err(IndexError);
      var tail := Format(t[1..], args);
      assert ArgumentsSuffice(t, args) <==>
             (t[0].Placeholder? ==> t[0].index < |args|) && ArgumentsSuffice(t[1..], args) by {
        assert forall k :: 1 <= k < |t| ==> t[k] == t[1..][k - 1];
      }
      if head.Err? then Err(IndexError)
      else if tail.Err? then Err(IndexError)
      else Ok(head.value + tail.value)
  }

  /** A literal prefix followed by one `{0}` field. */
  lemma FormatOnePlaceholder(prefix: string, args: seq<string>)
    requires |args| > 0
    ensures Format([Lit(prefix), Placeholder(0)], args) == Ok(prefix + args[0])
  {
    var t := [Lit(prefix), Placeholder(0)];
    assert t[1..] == [Placeholder(0)];
    assert t[1..][1..] == [];
    assert Format(t[1..][1..], args) == Ok("");
    assert Format(t[1..], args) == Ok(args[0] + "");
    assert args[0] + "" == args[0];
  }

  /** `urls`. The `{0}` fields carry the recovery token, the e-mail token
      and the cancellation token respectively. */
  const Urls: map<string, Template> := map[
    "home" := [Lit("/")],
    "login" := [Lit("/login")],
    "register" := [Lit("/register")],
    "forgot-password" := [Lit("/forgot-password")],
    "change-password" := [Lit("/change-password/"), Placeholder(0)],
    "change-email" := [Lit("/change-email/"), Placeholder(0)],
    "cancel-account" := [Lit("/cancel-account/"), Placeholder(0)]
  ]

  const PagesWithToken: set<string> := {"change-password", "change-email", "cancel-account"}

  /** Each token page's template is its own name between slashes, then `{0}`. */
  lemma TokenPageTemplate(page: string)
    requires page in PagesWithToken
    ensures page in Urls && Urls[page] == [Lit("/" + page + "/"), Placeholder(0)]
  {
    if page == "change-password" {
      assert "/" + page + "/" == "/change-password/";
    } else if page == "change-email" {
      assert "/" + page + "/" == "/change-email/";
    } else {
      assert "/" + page + "/" == "/cancel-account/";
    }
  }

  lemma LiteralPath(p: string)
    ensures Render([Lit(p)]) == p && PlaceholderCount([Lit(p)]) == 0
  {
    assert [Lit(p)][1..] == [];
  }

  lemma TokenPath(p: string)
    ensures Render([Lit(p), Placeholder(0)]) == p + "{0}" && PlaceholderCount([Lit(p), Placeholder(0)]) == 1
  {
    var t := [Lit(p), Placeholder(0)];
    assert t[1..] == [Placeholder(0)];
    assert t[1..][1..] == [];
    assert NatToString(0) == "0";
    assert Render(t[1..]) == "{0}" + "";
    assert PlaceholderCount(t[1..]) == 1 + PlaceholderCount(t[1..][1..]);
  }

  /** The seven keys, every path absolute, one `{0}` in each of the three
      token pages and none elsewhere. */
  lemma UrlTableFacts()
    ensures Urls.Keys == {"home", "login", "register", "forgot-password",
                          "change-password", "change-email", "cancel-account"}
    ensures forall k :: k in Urls ==> |Render(Urls[k])| > 0 && Render(Urls[k])[0] == '/'
    ensures forall k :: k in Urls ==> PlaceholderCount(Urls[k]) == if k in PagesWithToken then 1 else 0
    ensures Render(Urls["change-password"]) == "/change-password/{0}"
    ensures Render(Urls["change-email"]) == "/change-email/{0}"
    ensures Render(Urls["cancel-account"]) == "/cancel-account/{0}"
  {
    LiteralPath("/");
    LiteralPath("/login");
    LiteralPath("/register");
    LiteralPath("/forgot-password");
    TokenPath("/change-password/");
    TokenPath("/change-email/");
    TokenPath("/cancel-account/");
  }
}
