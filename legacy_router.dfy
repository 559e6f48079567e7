/** The older Glue router of glue.php: keys are stored without delimiters,
    which are added with the `i` flag at match time; any existing handler
    method is invoked, public or not (as PHP 8.1 and later let reflection
    do); a path no route matches raises URLNotFoundException. */
module LegacyRouter {
  import opened Php
  import opened Routing
  import Router

  /** How `stick` ends: the handler call it makes, or the exception it throws.
      The method check comes after `newInstanceArgs`, so its error also
      records the constructor arguments the controller was built with. */
  datatype Outcome =
    | Invoked(controller: string, ctorArgs: seq<Value>, methodName: string, args: seq<Arg>)
    | UrlNotFound(path: string)
    | ControllerNotFound(given: Value)
    | MethodNotSupported(httpMethod: string, controller: string, ctorArgs: seq<Value>)
  {
    /** The outcomes reached after the controller was constructed. */
    predicate Constructed()
    {
      Invoked? || MethodNotSupported?
    }
  }

  /** The key `addRoute` files a pattern under: anchored after the quoted base
      URL, with an optional trailing slash, and no delimiters. */
  function Key(baseUrl: string, pattern: string): (k: string)
    ensures |k| == |baseUrl| + |pattern| + 4
    ensures k[..1] == "^" && k[1..1 + |baseUrl|] == baseUrl
    ensures k[1 + |baseUrl|..|k| - 3] == pattern && k[|k| - 3..] == "/?$"
  {
    "^" + baseUrl + pattern + "/?$"
  }

  /** The regex `stick` hands to `preg_match` for a stored key: the key
      between `#` delimiters, followed by the `i` flag. */
  function Delimit(key: string): (regex: string)
    ensures |regex| == |key| + 3
    ensures regex[0] == '#' && regex[1..|regex| - 2] == key && regex[|regex| - 2..] == "#i"
  {
    "#" + key + "#i"
  }

  /** Two patterns share a key only when they are the same pattern. */
  lemma KeyInjective(baseUrl: string, p1: string, p2: string)
    ensures Key(baseUrl, p1) == Key(baseUrl, p2) <==> p1 == p2
  {
    AffixInjective("^" + baseUrl, "/?$", p1, p2);
  }

  /** The regex matched for a key of this variant is the very key the newer
      variant stores for the same base URL and pattern. */
  lemma DelimitedKeyIsCurrentKey(baseUrl: string, pattern: string)
    ensures Delimit(Key(baseUrl, pattern)) == Router.Key(baseUrl, pattern)
  {
  }

  /** Keys compare as the patterns with "/?$" appended compare: the shared
      prefix never decides. */
  lemma KeyOrder(baseUrl: string, p1: string, p2: string)
    ensures Below(Key(baseUrl, p1), Key(baseUrl, p2)) <==> Below(p1 + "/?$", p2 + "/?$")
  {
    AffixOrder("^" + baseUrl, "/?$", p1, p2);
  }

  /** How `addRoute` builds keys on a router with this base URL. */
  function KeyFor(baseUrl: string): string -> string
  {
    p => Key(baseUrl, p)
  }

  /** No two patterns share a key, so on this router `addRoutes` keeps the
      route of each pattern's last occurrence (`AddRoutesLastWriteWins`). */
  lemma KeyForInjective(baseUrl: string)
    ensures Injective(KeyFor(baseUrl))
  {
    forall p1, p2
      ensures KeyFor(baseUrl)(p1) == KeyFor(baseUrl)(p2) ==> p1 == p2
    {
      KeyInjective(baseUrl, p1, p2);
    }
  }

  /** `preg_match("#$regex#i", $path)` for each key. */
  function Matcher(pcre: Engine, path: string): string -> Option<Captures>
  {
    k => pcre(Delimit(k), path)
  }

  /** What the matched route alone decides: the class must exist and have the
      method; its visibility is not checked. */
  function Resolve(route: Route, captures: Captures, methodName: string, httpMethod: string, classes: Classes): (r: Outcome)
    ensures !r.UrlNotFound?
    ensures r.ControllerNotFound? <==> LookupClass(route.controller, classes).None?
    ensures r.ControllerNotFound? ==> r == ControllerNotFound(route.controller)
    ensures route.controller.Null? ==> r == ControllerNotFound(Null)
    ensures r.MethodNotSupported? <==>
      LookupClass(route.controller, classes).Some? &&
      LookupClass(route.controller, classes).value.methods(methodName).None?
    ensures r.MethodNotSupported? ==> r.httpMethod == httpMethod
    ensures r.Constructed() ==> ClassName(route.controller) == Some(r.controller) && r.ctorArgs == route.args
    ensures r.Invoked? ==>
      && r.methodName == methodName
      && r.args == BoundArgs(LookupClass(route.controller, classes).value.methods(methodName).value.params, captures)
  {
    match LookupClass(route.controller, classes)
    case None => ControllerNotFound(route.controller)
    case Some(info) =>
      var name := ClassName(route.controller).value;
      match info.methods(methodName)
      case None => MethodNotSupported(httpMethod, name, route.args)
      case Some(m) => Invoked(name, route.args, methodName, BoundArgs(m.params, captures))
  }

  /** Both variants decide a matched route alike, except that this one
      invokes a method the newer one refuses as not accessible, and reports
      a missing method with the HTTP method rather than the method name. */
  lemma ResolveDiffersOnlyInVisibility(route: Route, captures: Captures, methodName: string, httpMethod: string, classes: Classes)
    ensures Resolve(route, captures, methodName, httpMethod, classes).Invoked? <==>
      Router.Resolve(route, captures, methodName, classes).Invoked? ||
      Router.Resolve(route, captures, methodName, classes).MethodNotAccessible?
    ensures Router.Resolve(route, captures, methodName, classes).Invoked? ==>
      var r := Router.Resolve(route, captures, methodName, classes);
      Resolve(route, captures, methodName, httpMethod, classes) == Invoked(r.controller, r.ctorArgs, r.methodName, r.args)
    ensures Resolve(route, captures, methodName, httpMethod, classes).ControllerNotFound? <==>
      Router.Resolve(route, captures, methodName, classes).ControllerNotFound?
    ensures Router.Resolve(route, captures, methodName, classes).MethodNotDefined? ==>
      var r := Router.Resolve(route, captures, methodName, classes);
      Resolve(route, captures, methodName, httpMethod, classes) == MethodNotSupported(httpMethod, r.controller, r.ctorArgs)
  {
  }

  /** The scan of `stick` over a table in its current order: the first
      matching route decides, and no match at all is UrlNotFound. */
  function Dispatch(s: seq<Entry>, path: string, methodName: string, httpMethod: string, pcre: Engine, classes: Classes): (r: Outcome)
    ensures r.UrlNotFound? <==> forall i :: 0 <= i < |s| ==> pcre(Delimit(s[i].key), path).None?
    ensures r.UrlNotFound? ==> r.path == path
    ensures r.Invoked? ==> r.methodName == methodName
    ensures r.MethodNotSupported? ==> r.httpMethod == httpMethod
    ensures r.Constructed() ==> exists i :: 0 <= i < |s| && pcre(Delimit(s[i].key), path).Some? && r.ctorArgs == s[i].route.args
  {
    match FirstMatchFrom(s, Matcher(pcre, path), 0)
    case None => UrlNotFound(path)
    case Some(i) => Resolve(s[i].route, pcre(Delimit(s[i].key), path).value, methodName, httpMethod, classes)
  }

  /** After `krsort`, the route that decides is the one with the greatest key
      among those whose delimited regex matches. */
  lemma StickPicksGreatestMatch(s: seq<Entry>, path: string, methodName: string, httpMethod: string,
                                pcre: Engine, classes: Classes, k: string)
    requires DistinctKeys(s)
    requires k in ToMap(s) && pcre(Delimit(k), path).Some?
    requires forall k' :: k' in ToMap(s) && pcre(Delimit(k'), path).Some? ==> !Below(k, k')
    ensures Dispatch(SortDesc(s), path, methodName, httpMethod, pcre, classes) ==
      Resolve(ToMap(s)[k], pcre(Delimit(k), path).value, methodName, httpMethod, classes)
  {
    var m := Matcher(pcre, path);
    assert forall k' :: m(k') == pcre(Delimit(k'), path);
    SortedScanPicksGreatest(s, m, k);
  }

  /** `stick` raises UrlNotFound exactly when no key's delimited regex matches. */
  lemma StickNotFoundIffNoMatch(s: seq<Entry>, path: string, methodName: string, httpMethod: string,
                                pcre: Engine, classes: Classes)
    requires DistinctKeys(s)
    ensures Dispatch(SortDesc(s), path, methodName, httpMethod, pcre, classes).UrlNotFound? <==>
      forall k :: k in ToMap(s) ==> pcre(Delimit(k), path).None?
    ensures Dispatch(SortDesc(s), path, methodName, httpMethod, pcre, classes).UrlNotFound? ==>
      Dispatch(SortDesc(s), path, methodName, httpMethod, pcre, classes) == UrlNotFound(path)
  {
    var m := Matcher(pcre, path);
    assert forall k :: m(k) == pcre(Delimit(k), path);
    SortedScanFindsNothing(s, m);
  }

  /** Once a route matches, routes after it are never consulted, whatever
      the matched route's outcome. */
  lemma DispatchNoFallThrough(s: seq<Entry>, t: seq<Entry>, path: string, methodName: string, httpMethod: string,
                              pcre: Engine, classes: Classes)
    requires exists i :: 0 <= i < |s| && pcre(Delimit(s[i].key), path).Some?
    ensures Dispatch(s + t, path, methodName, httpMethod, pcre, classes) ==
      Dispatch(s, path, methodName, httpMethod, pcre, classes)
  {
    var m := Matcher(pcre, path);
    var x :| 0 <= x < |s| && pcre(Delimit(s[x].key), path).Some?;
    assert m(s[x].key).Some?;
    assert FirstMatchFrom(s, m, 0).Some?;
    FirstMatchPrefix(s, t, m, 0);
    var i := FirstMatchFrom(s, m, 0).value;
    assert (s + t)[i] == s[i];
  }

  class Glue {
    /** The base URL, already passed through `preg_quote`. */
    var baseUrl: string
    var routes: seq<Entry>
    var methodTranslator: Option<string -> string>

    ghost predicate Valid()
      reads this
    {
      DistinctKeys(routes)
    }

    /** The routes as a mapping from key to row. */
    function Table(): map<string, Route>
      reads this
    {
      ToMap(routes)
    }

    /** `quote` stands for `preg_quote($baseUrl, '#')`. */
    constructor (quote: string -> string, base: string)
      ensures Valid()
      ensures baseUrl == quote(base) && routes == [] && methodTranslator == None
    {
      baseUrl := quote(base);
      routes := [];
      methodTranslator := None;
    }

    method AddRoute(pattern: string, controller: Value, args: seq<Value>)
      requires Valid()
      modifies this
      ensures Valid()
      ensures routes == Put(old(routes), Key(baseUrl, pattern), Route(controller, args))
      ensures Table() == old(Table())[Key(baseUrl, pattern) := Route(controller, args)]
      ensures |old(routes)| <= |routes| <= |old(routes)| + 1
      ensures baseUrl == old(baseUrl) && methodTranslator == old(methodTranslator)
    {
      var key := Key(baseUrl, pattern);
      PutShape(routes, key, Route(controller, args));
      PutTable(routes, key, Route(controller, args));
      routes := Put(routes, key, Route(controller, args));
    }

    method AddRoutes(batch: seq<(string, Value)>)
      requires Valid()
      modifies this
      ensures Valid()
      ensures routes == PutAll(old(routes), Registrations(KeyFor(baseUrl), batch))
      ensures baseUrl == old(baseUrl) && methodTranslator == old(methodTranslator)
    {
      for n := 0 to |batch|
        invariant Valid()
        invariant baseUrl == old(baseUrl) && methodTranslator == old(methodTranslator)
        invariant routes == PutAll(old(routes), Registrations(KeyFor(baseUrl), batch[..n]))
      {
        var (pattern, controller) := batch[n];
        RegistrationsStep(old(routes), KeyFor(baseUrl), batch, n);
        if controller.List? {
          var head := if controller.items == [] then Null else controller.items[0];
          var rest := if controller.items == [] then [] else controller.items[1..];
          AddRoute(pattern, head, rest);
        } else {
          AddRoute(pattern, controller, []);
        }
      }
      assert batch[..|batch|] == batch;
    }

    method SetMethodTranslator(translator: string -> string)
      modifies this
      ensures methodTranslator == Some(translator)
      ensures routes == old(routes) && baseUrl == old(baseUrl)
    {
      methodTranslator := Some(translator);
    }

    /** `stick($path, $httpMethod)`; `server` stands for `$_SERVER`, `pcre`
        for `preg_match` and `classes` for reflection. */
    method Stick(path: Option<string>, httpMethod: Option<string>, server: Server, pcre: Engine, classes: Classes)
      returns (outcome: Outcome)
      requires Valid()
      modifies this
      ensures Valid() && Descending(routes)
      ensures routes == SortDesc(old(routes)) && Table() == old(Table())
      ensures baseUrl == old(baseUrl) && methodTranslator == old(methodTranslator)
      ensures outcome == Dispatch(routes, RequestPath(path, server),
        Translate(methodTranslator, RequestMethod(httpMethod, server)), RequestMethod(httpMethod, server),
        pcre, classes)
    {
      var p := RequestPath(path, server);
      var m := RequestMethod(httpMethod, server);
      SortDescSpec(routes);
      DescendingDistinct(SortDesc(routes));
      routes := SortDesc(routes);

      var table := routes;
      ghost var matcher := Matcher(pcre, p);
      var i := 0;
      while i < |table|
        invariant i <= |table|
        invariant FirstMatchFrom(table, matcher, i) == FirstMatchFrom(table, matcher, 0)
      {
        var matches := pcre("#" + table[i].key + "#i", p);
        assert Delimit(table[i].key) == "#" + table[i].key + "#i";
        assert matcher(table[i].key) == pcre(Delimit(table[i].key), p);
        if matches.Some? {
          var route := table[i].route;
          var info := LookupClass(route.controller, classes);
          if info.Some? {
            var className := ClassName(route.controller).value;
            var methodName := Translate(methodTranslator, m);
            var target := info.value.methods(methodName);
            if target.Some? {
              var args := BindArguments(target.value.params, matches.value);
              return Invoked(className, route.args, methodName, args);
            }
            return MethodNotSupported(m, className, route.args);
          }
          return ControllerNotFound(route.controller);
        }
        i := i + 1;
      }
      outcome := UrlNotFound(p);
    }
  }

  /** A client of the router: `new Glue($base)`, `addRoutes($batch)`, an
      optional `setMethodTranslator($f)`, then `stick`. The handler is
      invoked by the request's HTTP method itself until a translator is set,
      and by the translator's result on it afterwards; a missing method is
      reported with the untranslated HTTP method either way. */
  method RouteRequest(quote: string -> string, base: string, batch: seq<(string, Value)>,
                      translator: Option<string -> string>, path: Option<string>, httpMethod: Option<string>,
                      server: Server, pcre: Engine, classes: Classes)
    returns (outcome: Outcome)
    ensures translator.None? && outcome.Invoked? ==> outcome.methodName == RequestMethod(httpMethod, server)
    ensures translator.Some? && outcome.Invoked? ==>
      outcome.methodName == translator.value(RequestMethod(httpMethod, server))
    ensures outcome.MethodNotSupported? ==> outcome.httpMethod == RequestMethod(httpMethod, server)
    ensures outcome.UrlNotFound? ==> outcome.path == RequestPath(path, server)
  {
    var glue := new Glue(quote, base);
    glue.AddRoutes(batch);
    if translator.Some? {
      glue.SetMethodTranslator(translator.value);
    }
    outcome := glue.Stick(path, httpMethod, server, pcre, classes);
  }
}
