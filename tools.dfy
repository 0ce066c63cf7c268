/**
 * The REST-calling tool server: substitution of `{name}` placeholders into an endpoint
 * path, and the method dispatch of `call_api` (the HTTP request itself is returned as a
 * value instead of being sent).
 */
module ToolServer {
  import opened Wrappers
  import opened Text

  /** One entry of a tool's `params` list. */
  datatype Param = Param(name: string, varName: string)

  /** `f"{{{name}}}"`. */
  function Placeholder(name: string): (p: string)
    ensures p != [] && p[0] == '{'
  {
    "{" + name + "}"
  }

  /**
   * One iteration of the loop: when the bare name occurs in the path, every "{name}"
   * becomes the value of `varName`, a KeyError when that key is missing; otherwise the path
   * is kept.
   */
  function SubstituteOne(path: string, p: Param, values: map<string, string>): (r: Result<string, string>)
    ensures !Contains(path, p.name) ==> r == Success(path)
    ensures r.Failure? <==> Contains(path, p.name) && p.varName !in values
    ensures r.Failure? ==> r.error == p.varName
    ensures !Contains(path, Placeholder(p.name)) && r.Success? ==> r.value == path
  {
    if !Contains(path, p.name) then Success(path)
    else if p.varName !in values then Failure(p.varName)
    else
      ReplaceAllAbsent(path, Placeholder(p.name), values[p.varName]);
      Success(ReplaceAll(path, Placeholder(p.name), values[p.varName]))
  }

  /** The params applied in list order, each to the path the previous one produced. */
  function Substitute(path: string, params: seq<Param>, values: map<string, string>): Result<string, string>
    decreases |params|
  {
    if params == [] then Success(path)
    else
      match SubstituteOne(path, params[0], values)
      case Failure(e) => Failure(e)
      case Success(next) => Substitute(next, params[1..], values)
  }

  /** `replace_placeholders_in_path`, a loop that reassigns `path` once per param. */
  method ReplacePlaceholdersInPath(path: string, params: seq<Param>, values: map<string, string>)
    returns (r: Result<string, string>)
    ensures r == Substitute(path, params, values)
  {
    var current := path;
    for i := 0 to |params|
      invariant Substitute(current, params[i..], values) == Substitute(path, params, values)
    {
      assert params[i..][1..] == params[i + 1..];
      var p := params[i];
      if Contains(current, p.name) {
        if p.varName !in values {
          return Failure(p.varName);
        }
        current := ReplaceAll(current, Placeholder(p.name), values[p.varName]);
      }
    }
    r := Success(current);
  }

  /** Applying `ps + qs` is applying `ps`, then `qs` to its result. */
  lemma {:induction false} SubstituteSequential(path: string, ps: seq<Param>, qs: seq<Param>, values: map<string, string>)
    ensures Substitute(path, ps + qs, values) ==
      match Substitute(path, ps, values)
      case Failure(e) => Failure(e)
      case Success(mid) => Substitute(mid, qs, values)
    decreases |ps|
  {
    if ps == [] {
      assert ps + qs == qs;
    } else {
      assert (ps + qs)[0] == ps[0] && (ps + qs)[1..] == ps[1..] + qs;
      match SubstituteOne(path, ps[0], values)
      case Failure(e) =>
      case Success(next) => SubstituteSequential(next, ps[1..], qs, values);
    }
  }

  /** With every `varName` present in the values, substitution never fails. */
  lemma {:induction false} SubstituteTotal(path: string, params: seq<Param>, values: map<string, string>)
    requires forall k :: 0 <= k < |params| ==> params[k].varName in values
    ensures Substitute(path, params, values).Success?
    decreases |params|
  {
    if params != [] {
      SubstituteTotal(SubstituteOne(path, params[0], values).value, params[1..], values);
    }
  }

  /** A name with no braces; its placeholder's `{` is then the first character only. */
  predicate BraceFree(s: string) {
    '{' !in s && '}' !in s
  }

  /**
   * If every `{` in the path opens "{name}", the name is brace-free and the value holds no
   * `{`, then after the step no "{name}" is left.
   */
  lemma PlaceholderCleared(path: string, p: Param, values: map<string, string>)
    requires BraceFree(p.name) && p.varName in values && '{' !in values[p.varName]
    requires OnlyOpensPattern(path, Placeholder(p.name))
    ensures SubstituteOne(path, p, values).Success?
    ensures !Contains(SubstituteOne(path, p, values).value, Placeholder(p.name))
  {
    var pat := Placeholder(p.name);
    assert pat[1..] == p.name + "}";
    if Contains(path, p.name) {
      ReplaceAllClears(path, pat, values[p.varName]);
    } else {
      assert '{' !in path by {
        forall i | 0 <= i < |path| && path[i] == '{'
          ensures false
        {
          assert StartsWith(path[i..], pat);
          PlaceholderHoldsName(path[i..], p.name);
          ContainsSuffix(path, i, p.name);
        }
      }
      NoFirstCharNoContains(path, pat);
    }
  }

  lemma PlaceholderHoldsName(s: string, name: string)
    requires StartsWith(s, Placeholder(name))
    ensures Contains(s[1..], name)
  {
    assert s[1..][..|name|] == name;
  }

  /** What a suffix contains, the whole string contains. */
  lemma {:induction false} ContainsSuffix(s: string, i: nat, t: string)
    requires i < |s| && Contains(s[i + 1..], t)
    ensures Contains(s, t)
    decreases i
  {
    if i > 0 {
      assert s[1..][i..] == s[i + 1..];
      ContainsSuffix(s[1..], i - 1, t);
    } else {
      assert s[1..] == s[i + 1..];
    }
  }

  /** Str.replace is not a full cleanup: "{{x}}" with "{x}" replaced by "x" still holds "{x}". */
  lemma NestedBracesLeavePlaceholder()
    ensures SubstituteOne("{{x}}", Param("x", "v"), map["v" := "x"]) == Success("{x}")
    ensures Contains("{x}", Placeholder("x"))
  {
    var path := "{{x}}";
    assert path[2..][..1] == "x";
    assert Contains(path[2..], "x");
    assert path[1..][1..] == path[2..];
    assert Contains(path, "x");
    assert path[1..][..3] == "{x}";
    assert ReplaceAll(path, "{x}", "x") == "{" + ReplaceAll(path[1..], "{x}", "x");
    assert ReplaceAll(path[1..], "{x}", "x") == "x" + ReplaceAll(path[4..], "{x}", "x");
    assert ReplaceAll(path[4..], "{x}", "x") == "}";
    assert Placeholder("x") == "{x}";
    assert ReplaceAll(path, "{x}", "x") == "{x}";
    assert StartsWith("{x}", "{x}");
  }

  // ---------------------------------------------------------------- call_api

  datatype HttpMethod = Get | Post | Put | Delete

  function MethodName(m: HttpMethod): string {
    match m
    case Get => "get"
    case Post => "post"
    case Put => "put"
    case Delete => "delete"
  }

  /** The request `call_api` would send: GET and DELETE carry no JSON body. */
  datatype Request = Request(verb: HttpMethod, url: string, query: map<string, string>, body: Option<string>)

  /**
   * The dispatch of `call_api`: exactly "get", "post", "put" and "delete" are accepted, any
   * other string is a ValueError; the URL is the base URL followed by the path.
   */
  function CallApi(baseUrl: string, urlPath: string, httpMethod: string, query: map<string, string>, payload: string)
    : (r: Result<Request, string>)
    ensures r.Success? <==> httpMethod in {"get", "post", "put", "delete"}
    ensures r.Success? ==> MethodName(r.value.verb) == httpMethod
    ensures r.Success? ==> r.value.url == baseUrl + urlPath && r.value.query == query
    ensures r.Success? ==> (r.value.body == Some(payload) <==> r.value.verb in {Post, Put})
    ensures r.Success? ==> (r.value.body.None? <==> r.value.verb in {Get, Delete})
    ensures r.Failure? ==> r.error == "Unsupported HTTP method: " + httpMethod
  {
    var url := baseUrl + urlPath;
    if httpMethod == "get" then Success(Request(Get, url, query, None))
    else if httpMethod == "post" then Success(Request(Post, url, query, Some(payload)))
    else if httpMethod == "put" then Success(Request(Put, url, query, Some(payload)))
    else if httpMethod == "delete" then Success(Request(Delete, url, query, None))
    else Failure("Unsupported HTTP method: " + httpMethod)
  }

  /** Upper-case method names are rejected. */
  lemma UpperCaseRejected()
    ensures CallApi("", "", "GET", map[], "").Failure?
  {
  }
}
