/** The Glue router of Glue.php: each key carries its own `#` delimiters and
    the `i` flag, a handler method must be public, and a path no route
    matches raises ResourceNotFoundException. */
module Router {
  import opened Php
  import opened Routing

  /** How `stick` ends: the handler call it makes, or the exception it throws.
      The method checks come after `newInstanceArgs`, so their errors also
      record the constructor arguments the controller was built with. */
  datatype Outcome =
    | Invoked(controller: string, ctorArgs: seq<Value>, methodName: string, args: seq<Arg>)
    | ResourceNotFound(path: string)
    | ControllerNotFound(given: Value)
    | MethodNotDefined(controller: string, ctorArgs: seq<Value>, methodName: string)
    | MethodNotAccessible(controller: string, ctorArgs: seq<Value>, methodName: string)
  {
    /** The outcomes reached after the controller was constructed. */
    predicate Constructed()
    {
      Invoked? || MethodNotDefined? || MethodNotAccessible?
    }
  }

  /** The key `addRoute` files a pattern under: anchored after the quoted base
      URL, an optional trailing slash, `#` delimiters and the `i` flag. */
  function Key(baseUrl: string, pattern: string): (k: string)
    ensures |k| == |baseUrl| + |pattern| + 7
    ensures k[..2] == "#^" && k[2..2 + |baseUrl|] == baseUrl
    ensures k[2 + |baseUrl|..|k| - 5] == pattern && k[|k| - 5..] == "/?$#i"
  {
    "#^" + baseUrl + pattern + "/?$#i"
  }

  /** Two patterns share a key only when they are the same pattern. */
  lemma KeyInjective(baseUrl: string, p1: string, p2: string)
    ensures Key(baseUrl, p1) == Key(baseUrl, p2) <==> p1 == p2
  {
    AffixInjective("#^" + baseUrl, "/?$#i", p1, p2);
  }

  /** Keys compare as the patterns with "/?$#i" appended compare: the
      shared prefix never decides. */
  lemma KeyOrder(baseUrl: string, p1: string, p2: string)
    ensures Below(Key(baseUrl, p1), Key(baseUrl, p2)) <==> Below(p1 + "/?$#i", p2 + "/?$#i")
  {
    AffixOrder("#^" + baseUrl, "/?$#i", p1, p2);
  }

  /** Precedence follows the keys, not the patterns: "a" sorts below "a/",
      yet the key of "a" sorts above that of "a/", so "a" is tried first. */
  lemma KeyOrderIsNotPatternOrder(baseUrl: string)
    ensures Below("a", "a/")
    ensures Below(Key(baseUrl, "a/"), Key(baseUrl, "a"))
  {
    KeyOrder(baseUrl, "a/", "a");
    assert "a/" + "/?$#i" == "a//?$#i" && "a" + "/?$#i" == "a/?$#i";
    assert Below("//?$#i", "/?$#i");
    assert Below("a//?$#i", "a/?$#i");
  }

  /** How `addRoute` builds keys on a router with this base URL. */
  function KeyFor(baseUrl: string): string -> string
  {
    p => Key(baseUrl, p)
  }

  /** No two patterns share a key, so on this router `addRoutes` keeps the
      route of each pattern's last occurrence (`AddRoutesLastWriteWins`). */
  lemma KeyForInjective(baseUrl: string)
    ensures Injective(KeyFor(baseUrl))
  {
    forall p1, p2
      ensures KeyFor(baseUrl)(p1) == KeyFor(baseUrl)(p2) ==> p1 == p2
    {
      KeyInjective(baseUrl, p1, p2);
    }
  }

  /** `preg_match($regex, $path)` for each key: the key is the whole regex. */
  function Matcher(pcre: Engine, path: string): string -> Option<Captures>
  {
    k => pcre(k, path)
  }

  /** What the matched route alone decides, checking in this order: the
      class exists, the method exists, the method is public. */
  function Resolve(route: Route, captures: Captures, methodName: string, classes: Classes): (r: Outcome)
    ensures !r.ResourceNotFound?
    ensures r.ControllerNotFound? <==> LookupClass(route.controller, classes).None?
    ensures r.ControllerNotFound? ==> r == ControllerNotFound(route.controller)
    ensures route.controller.Null? ==> r == ControllerNotFound(Null)
    ensures r.MethodNotDefined? <==>
      LookupClass(route.controller, classes).Some? &&
      LookupClass(route.controller, classes).value.methods(methodName).None?
    ensures r.MethodNotAccessible? <==>
      LookupClass(route.controller, classes).Some? &&
      LookupClass(route.controller, classes).value.methods(methodName).Some? &&
      !LookupClass(route.controller, classes).value.methods(methodName).value.isPublic
    ensures r.Constructed() ==>
      ClassName(route.controller) == Some(r.controller) && r.ctorArgs == route.args && r.methodName == methodName
    ensures r.Invoked? ==>
      r.args == BoundArgs(LookupClass(route.controller, classes).value.methods(methodName).value.params, captures)
  {
    match LookupClass(route.controller, classes)
    case None => ControllerNotFound(route.controller)
    case Some(info) =>
      var name := ClassName(route.controller).value;
      match info.methods(methodName)
      case None => MethodNotDefined(name, route.args, methodName)
      case Some(m) =>
        if m.isPublic then Invoked(name, route.args, methodName, BoundArgs(m.params, captures))
        else MethodNotAccessible(name, route.args, methodName)
  }

  /** The scan of `stick` over a table in its current order: the first
      matching route decides, and no match at all is ResourceNotFound. */
  function Dispatch(s: seq<Entry>, path: string, methodName: string, pcre: Engine, classes: Classes): (r: Outcome)
    ensures r.ResourceNotFound? <==> forall i :: 0 <= i < |s| ==> pcre(s[i].key, path).None?
    ensures r.ResourceNotFound? ==> r.path == path
    ensures r.Constructed() ==> r.methodName == methodName
    ensures r.Constructed() ==> exists i :: 0 <= i < |s| && pcre(s[i].key, path).Some? && r.ctorArgs == s[i].route.args
  {
    match FirstMatchFrom(s, Matcher(pcre, path), 0)
    case None => ResourceNotFound(path)
    case Some(i) => Resolve(s[i].route, pcre(s[i].key, path).value, methodName, classes)
  }

  /** After `krsort`, the route that decides is the one with the greatest key
      among those whose regex matches. */
  lemma StickPicksGreatestMatch(s: seq<Entry>, path: string, methodName: string, pcre: Engine, classes: Classes, k: string)
    requires DistinctKeys(s)
    requires k in ToMap(s) && pcre(k, path).Some?
    requires forall k' :: k' in ToMap(s) && pcre(k', path).Some? ==> !Below(k, k')
    ensures Dispatch(SortDesc(s), path, methodName, pcre, classes) ==
      Resolve(ToMap(s)[k], pcre(k, path).value, methodName, classes)
  {
    var m := Matcher(pcre, path);
    assert forall k' :: m(k') == pcre(k', path);
    SortedScanPicksGreatest(s, m, k);
  }

  /** `stick` raises ResourceNotFound exactly when no key's regex matches. */
  lemma StickNotFoundIffNoMatch(s: seq<Entry>, path: string, methodName: string, pcre: Engine, classes: Classes)
    requires DistinctKeys(s)
    ensures Dispatch(SortDesc(s), path, methodName, pcre, classes).ResourceNotFound? <==>
      forall k :: k in ToMap(s) ==> pcre(k, path).None?
    ensures Dispatch(SortDesc(s), path, methodName, pcre, classes).ResourceNotFound? ==>
      Dispatch(SortDesc(s), path, methodName, pcre, classes) == ResourceNotFound(path)
  {
    var m := Matcher(pcre, path);
    assert forall k :: m(k) == pcre(k, path);
    SortedScanFindsNothing(s, m);
  }

  /** Once a route matches, routes after it are never consulted, whatever
      the matched route's outcome. */
  lemma DispatchNoFallThrough(s: seq<Entry>, t: seq<Entry>, path: string, methodName: string, pcre: Engine, classes: Classes)
    requires exists i :: 0 <= i < |s| && pcre(s[i].key, path).Some?
    ensures Dispatch(s + t, path, methodName, pcre, classes) == Dispatch(s, path, methodName, pcre, classes)
  {
    var m := Matcher(pcre, path);
    var x :| 0 <= x < |s| && pcre(s[x].key, path).Some?;
    assert m(s[x].key).Some?;
    assert FirstMatchFrom(s, m, 0).Some?;
    FirstMatchPrefix(s, t, m, 0);
    var i := FirstMatchFrom(s, m, 0).value;
    assert (s + t)[i] == s[i];
  }

  class Glue {
    /** The base URL, already passed through `preg_quote`. */
    var baseUrl: string
    var routes: seq<Entry>
    var methodTranslator: Option<string -> string>

    ghost predicate Valid()
      reads this
    {
      DistinctKeys(routes)
    }

    /** The routes as a mapping from key to row. */
    function Table(): map<string, Route>
      reads this
    {
      ToMap(routes)
    }

    /** `quote` stands for `preg_quote($baseUrl, '#')`. */
    constructor (quote: string -> string, base: string)
      ensures Valid()
      ensures baseUrl == quote(base) && routes == [] && methodTranslator == None
    {
      baseUrl := quote(base);
      routes := [];
      methodTranslator := None;
    }

    method AddRoute(pattern: string, controller: Value, args: seq<Value>)
      requires Valid()
      modifies this
      ensures Valid()
      ensures routes == Put(old(routes), Key(baseUrl, pattern), Route(controller, args))
      ensures Table() == old(Table())[Key(baseUrl, pattern) := Route(controller, args)]
      ensures |old(routes)| <= |routes| <= |old(routes)| + 1
      ensures baseUrl == old(baseUrl) && methodTranslator == old(methodTranslator)
    {
      var key := Key(baseUrl, pattern);
      PutShape(routes, key, Route(controller, args));
      PutTable(routes, key, Route(controller, args));
      routes := Put(routes, key, Route(controller, args));
    }

    method AddRoutes(batch: seq<(string, Value)>)
      requires Valid()
      modifies this
      ensures Valid()
      ensures routes == PutAll(old(routes), Registrations(KeyFor(baseUrl), batch))
      ensures baseUrl == old(baseUrl) && methodTranslator == old(methodTranslator)
    {
      for n := 0 to |batch|
        invariant Valid()
        invariant baseUrl == old(baseUrl) && methodTranslator == old(methodTranslator)
        invariant routes == PutAll(old(routes), Registrations(KeyFor(baseUrl), batch[..n]))
      {
        var (pattern, controller) := batch[n];
        RegistrationsStep(old(routes), KeyFor(baseUrl), batch, n);
        if controller.List? {
          var head := if controller.items == [] then Null else controller.items[0];
          var rest := if controller.items == [] then [] else controller.items[1..];
          AddRoute(pattern, head, rest);
        } else {
          AddRoute(pattern, controller, []);
        }
      }
      assert batch[..|batch|] == batch;
    }

    method SetMethodTranslator(translator: string -> string)
      modifies this
      ensures methodTranslator == Some(translator)
      ensures routes == old(routes) && baseUrl == old(baseUrl)
    {
      methodTranslator := Some(translator);
    }

    /** `stick($path, $httpMethod)`; `server` stands for `$_SERVER`, `pcre`
        for `preg_match` and `classes` for reflection. */
    method Stick(path: Option<string>, httpMethod: Option<string>, server: Server, pcre: Engine, classes: Classes)
      returns (outcome: Outcome)
      requires Valid()
      modifies this
      ensures Valid() && Descending(routes)
      ensures routes == SortDesc(old(routes)) && Table() == old(Table())
      ensures baseUrl == old(baseUrl) && methodTranslator == old(methodTranslator)
      ensures outcome == Dispatch(routes, RequestPath(path, server),
        Translate(methodTranslator, RequestMethod(httpMethod, server)), pcre, classes)
    {
      var p := RequestPath(path, server);
      var m := RequestMethod(httpMethod, server);
      SortDescSpec(routes);
      DescendingDistinct(SortDesc(routes));
      routes := SortDesc(routes);

      var table := routes;
      ghost var matcher := Matcher(pcre, p);
      var i := 0;
      while i < |table|
        invariant i <= |table|
        invariant FirstMatchFrom(table, matcher, i) == FirstMatchFrom(table, matcher, 0)
      {
        var matches := pcre(table[i].key, p);
        if matches.Some? {
          var route := table[i].route;
          var info := LookupClass(route.controller, classes);
          if info.Some? {
            var className := ClassName(route.controller).value;
            var methodName := Translate(methodTranslator, m);
            var target := info.value.methods(methodName);
            if target.Some? {
              if target.value.isPublic {
                var args := BindArguments(target.value.params, matches.value);
                return Invoked(className, route.args, methodName, args);
              }
              return MethodNotAccessible(className, route.args, methodName);
            }
            return MethodNotDefined(className, route.args, methodName);
          }
          return ControllerNotFound(route.controller);
        }
        i := i + 1;
      }
      outcome := ResourceNotFound(p);
    }
  }

  /** A client of the router: `new Glue($base)`, `addRoutes($batch)`, an
      optional `setMethodTranslator($f)`, then `stick`. The method the
      handler is looked up by is the request's HTTP method itself until a
      translator is set, and the translator's result on it afterwards; an
      ambient, untranslated method is in upper case. */
  method RouteRequest(quote: string -> string, base: string, batch: seq<(string, Value)>,
                      translator: Option<string -> string>, path: Option<string>, httpMethod: Option<string>,
                      server: Server, pcre: Engine, classes: Classes)
    returns (outcome: Outcome)
    ensures translator.None? && outcome.Constructed() ==> outcome.methodName == RequestMethod(httpMethod, server)
    ensures translator.Some? && outcome.Constructed() ==>
      outcome.methodName == translator.value(RequestMethod(httpMethod, server))
    ensures translator.None? && outcome.Constructed() && (httpMethod.None? || !Truthy(httpMethod.value)) ==>
      forall i :: 0 <= i < |outcome.methodName| ==> !IsLowerAscii(outcome.methodName[i])
    ensures outcome.ResourceNotFound? ==> outcome.path == RequestPath(path, server)
  {
    var glue := new Glue(quote, base);
    glue.AddRoutes(batch);
    if translator.Some? {
      glue.SetMethodTranslator(translator.value);
    }
    outcome := glue.Stick(path, httpMethod, server, pcre, classes);
  }
}
