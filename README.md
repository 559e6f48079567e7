# Glue URI router, modelled in Dafny

Glue is a small PHP router. A `Glue` object keeps a table of routes. Each
route is keyed by a regular expression built from a URI pattern and maps to a
controller class name and the arguments for that class's constructor.
`stick($path, $httpMethod)` sorts the table by descending key (`krsort`) and
takes the first route whose regular expression matches the path. It then
checks that the class exists and that it has the method named by the
(optionally translated) HTTP method. In the newer variant the method must also
be public. Finally it calls that method, binding the captured groups to the
method's parameters by name.

The repository has two variants of the class, and both are modelled:

- `Glue.php` (module `Router`): each key carries its own `#` delimiters and
  the `i` flag. A method that exists but is not public is refused. No match
  raises `ResourceNotFoundException`.
- `glue.php` (module `LegacyRouter`): keys are stored undelimited, and
  `"#$regex#i"` is built when matching. Method visibility is not checked. A
  missing method raises one `BadMethodCallException` that carries the HTTP
  method. No match raises `URLNotFoundException`.

Files:

- `php.dfy` (module `Php`) holds the PHP semantics the router relies on:
  values, the truthiness test of `?:`, `strtoupper`, and the byte order
  `krsort` uses on string keys (`Below`) with its order laws.
- `routing.dfy` (module `Routing`) holds what both variants share. The route
  table is an ordered sequence of entries with distinct keys, just as a PHP
  array is. It also has `$routes[$k] = …` (`Put`), `krsort` (`SortDesc`), the
  first-match scan, argument binding, method translation and
  `removeQueryString`.
- `router.dfy` and `legacy_router.dfy` hold one `Glue` class each. Its fields
  are `baseUrl`, `routes` and `methodTranslator`. `AddRoute`, `AddRoutes`,
  `SetMethodTranslator` and `Stick` update them in place. Each file also holds
  the pure specification of `stick` (`Resolve`, `Dispatch`) and the lemmas
  about it.

Collaborators the router cannot see are parameters:

- `pcre: (pattern, subject) -> Option<Captures>` stands for `preg_match`.
- `quote` stands for `preg_quote`.
- `classes: name -> Option<ClassInfo>` stands for `class_exists` plus
  reflection. A `ClassInfo` maps method names to visibility and parameter
  names.
- `server` stands for the two `$_SERVER` entries.

`Stick` does not call the handler. It returns the call it would make, as data
(`Invoked(class, constructor args, method, bound args)`), or the exception it
would throw. Both variants construct the controller (`newInstanceArgs`)
before they check the method. So the "not defined", "not accessible" and
"not supported" outcomes also carry the constructor arguments the controller
was built with.

The model follows PHP 8.1 and later. On those versions reflection may invoke
a method that is not public, which is what the older variant relies on.
`class_exists` finds no class with the empty name. So a null controller, which
`addRoutes` stores for an empty array, is never found.

Points where the code differs from a plain reading of its documentation:

- **Precedence.** Precedence is the descending byte order of the full
  compiled key, not of the raw pattern. The shared prefix (`#^` and the quoted
  base URL) never decides (`KeyOrder`). The appended `/?$#i` can decide. For
  example, pattern `a` is tried before `a/`, although `a` sorts below `a/`
  (`KeyOrderIsNotPatternOrder`).
- **Malformed patterns.** A malformed pattern raises no exception.
  `preg_match` emits a warning and returns `false`, which `if` reads as no
  match, so the scan goes on to the next key. The engine parameter returns
  `None` in that case.
- **Explicit HTTP method.** An explicit HTTP method is used as given. Only
  the ambient one is upper-cased. An explicit path or method of `""` or `"0"`
  counts as absent, because PHP's `?:` treats it as false.
- **Line breaks.** `removeQueryString` uses `preg_replace('/\?.*$/', '', …)`.
  On a URI with a line break, that replacement keeps a final line break and
  is not idempotent: `"a?b\n?c"` becomes `"a?b\n"`, which then becomes
  `"a\n"`. The model follows the regular expression exactly
  (`RemoveQueryStringLineBreak`). The prefix and idempotence properties are
  proved for URIs without line breaks.
- **Error messages.** In `glue.php` the error for a missing method names the
  HTTP method, not the translated method name.
- **Escaping.** The class comment of `glue.php` (glue.php:11-12) says that
  `/` delimiters in a URL pattern are escaped automatically. `addRoute`
  (glue.php:82) escapes nothing in the pattern; only the base URL is quoted
  (glue.php:25). The stored key is exactly `"^" + baseUrl + pattern + "/?$"`
  (`LegacyRouter.Key`).
- **Exception names.** `stick` in `Glue.php` is documented to throw
  `ControllerNotFound` and `URLNotFoundException` (Glue.php:107-108). It
  throws `ControllerNotFoundException` (Glue.php:151) and, when nothing
  matches, `ResourceNotFoundException` (Glue.php:155). The model follows the
  code (`ControllerNotFound`, `ResourceNotFound`).

## Model

| member | source | states |
|---|---|---|
| `Php.StrToUpper` | Glue.php:113 | `strtoupper` keeps the length and raises each ASCII lower-case letter; no lower-case ASCII letter is left |
| `Php.BelowTransitive` | Glue.php:114 | the byte order `krsort` applies to keys is transitive |
| `Php.BelowTotal` | Glue.php:114 | any two different keys are ordered one way or the other, so the order is total and the sort deterministic |
| `Php.BelowCommonPrefix` | Glue.php:40 | a prefix shared by two keys never changes how they compare |
| `Routing.Put` | Glue.php:41 | assignment grows the table by one exactly when the key is new, puts the new entry last in that case, and leaves every position holding another key as it was |
| `Routing.PutMap` | Glue.php:41 | the mapping after an assignment is the old one with the key bound to the new row |
| `Routing.PutShape` | Glue.php:41 | assignment to `$routes[$key]` replaces an existing key's row at its position, otherwise appends; every other position is untouched and the table grows by at most one |
| `Routing.PutTable` | Glue.php:41 | assignment keeps keys distinct and the new mapping is the old one with the key bound to the new row (last write wins, other keys unchanged) |
| `Routing.PutAllLastWins` | Glue.php:54-63 | after a run of assignments each key holds the row of its last assignment |
| `Routing.PutAllUntouched` | Glue.php:54-63 | a key that no assignment in the run names keeps its presence and its row |
| `Routing.AddRoutesLastWriteWins` | Glue.php:54-63 | with injective key building, after `addRoutes` a pattern's key holds the route split from its last occurrence in the batch (glue.php:87-96 alike) |
| `Routing.RouteOf` | Glue.php:56-61 | an array value splits into its head as controller and its tail, in order, as constructor arguments (null and no arguments when empty); any other value is the controller with no arguments |
| `Routing.SortDesc` | Glue.php:114 | `krsort` keeps exactly the entries it was given (a permutation) |
| `Routing.SortDescSpec` | Glue.php:114 | `krsort` leaves keys strictly descending, the same entries (a permutation) and the same key-to-row mapping |
| `Routing.DescendingUnique` | Glue.php:114 | two strictly descending tables holding the same entries are identical |
| `Routing.KrsortCanonical` | Glue.php:114 | the sorted table depends only on the key-to-row mapping, never on insertion order |
| `Routing.FirstMatchFrom` | Glue.php:116-117 | the scan returns the first index whose key matches, with no match before it, or reports that no key matches |
| `Routing.FirstMatchIsGreatest` | Glue.php:114-117 | on a descending table the first match has the greatest key among all matching entries |
| `Routing.FirstMatchPrefix` | Glue.php:116-152 | entries after the first match are never consulted |
| `Routing.SortedScanPicksGreatest` | Glue.php:114-117 | after `krsort`, the scan stops at the entry of the greatest key that matches, holding that key's row |
| `Routing.SortedScanFindsNothing` | Glue.php:114-117 | after `krsort`, the scan finds nothing exactly when no key of the table matches |
| `Routing.ClassName` | Glue.php:118-120 | an array controller names no class, and a non-empty class name comes only from a string controller that is that name |
| `Routing.LookupClass` | Glue.php:120 | a non-empty string controller is looked up by its name; null, the empty string and an array are never found |
| `Routing.AffixInjective` | Glue.php:40 | patterns wrapped in the same prefix and suffix give equal keys exactly when they are equal |
| `Routing.AffixOrder` | Glue.php:40 | wrapped patterns compare as the patterns with the suffix appended compare |
| `Routing.BoundArgs` | Glue.php:129-140 | one argument per declared parameter, in order: `matches` gets the whole capture array, a parameter named like a captured group gets its text, any other gets null |
| `Routing.BindArguments` | Glue.php:130-140 | the `foreach` loop building `$methodArgs` produces exactly `BoundArgs` |
| `Routing.RemoveQueryString` | Glue.php:87-89 | the URI comes back unchanged exactly when no `?` can start a match; otherwise the result is shorter and keeps the URI up to a `?` that starts the match |
| `Routing.RemoveQueryStringCuts` | Glue.php:87-89 | on a URI without line breaks, the result is the prefix before the first `?`, contains no `?`, and equals the URI exactly when it has no `?` |
| `Routing.RemoveQueryStringIdempotent` | Glue.php:87-89 | on a URI without line breaks, stripping twice equals stripping once |
| `Routing.RemoveQueryStringLineBreak` | Glue.php:87-89 | with a line break the replacement keeps a final line break and is not idempotent (`"a?b\n?c"` becomes `"a?b\n"`, then `"a\n"`) |
| `Routing.RequestPath` | Glue.php:112 | an explicit path other than `""` and `"0"` is routed as given; otherwise the request URI is cut, and on a URI without line breaks the routed path is the URI up to its first `?` (the whole URI exactly when it has no `?`) |
| `Routing.RequestMethod` | Glue.php:113 | an explicit method other than `""` and `"0"` is used as given; otherwise the ambient method is upper-cased character by character (same length, each character `UpperChar` of the original, no lower-case ASCII letter left) |
| `Routing.AmbientPathDropsQuery` | Glue.php:112 | without a usable explicit path, the routed path is the request URI up to its query string |
| `Router.Key` | Glue.php:40 | the key is `#^`, the quoted base URL, the pattern, then `/?$#i`, each at its own position |
| `Router.KeyInjective` | Glue.php:40 | two patterns get the same key exactly when they are the same pattern |
| `Router.KeyOrder` | Glue.php:40 | keys compare as their patterns with `/?$#i` appended compare |
| `Router.KeyOrderIsNotPatternOrder` | Glue.php:40 | pattern `a` sorts below `a/` but its key sorts above, so `a` is tried first |
| `Router.KeyForInjective` | Glue.php:40 | the key building of one router files no two patterns under one key, so `Routing.AddRoutesLastWriteWins` applies to it |
| `Router.Resolve` | Glue.php:118-151 | the matched route alone decides, in order: missing class (always so for a null controller), then missing method, then non-public method, otherwise a call with the bound arguments; every outcome after construction carries the route's constructor arguments and the looked-up method name; it never reports a missing route |
| `Router.Dispatch` | Glue.php:116-155 | `ResourceNotFound(path)` exactly when no key matches; an outcome after construction names the method looked up and carries the constructor arguments of a matching route |
| `Router.StickPicksGreatestMatch` | Glue.php:114-117 | after sorting, the outcome is decided by the greatest key whose regex matches the path |
| `Router.StickNotFoundIffNoMatch` | Glue.php:116-155 | `ResourceNotFound(path)` is raised exactly when no key matches the path |
| `Router.DispatchNoFallThrough` | Glue.php:116-152 | once an entry matches, appending further routes after it never changes the outcome, even when the outcome is an error |
| `Router.Glue.constructor` | Glue.php:23-25 | the base URL is stored quoted; no routes and no translator |
| `Router.Glue.AddRoute` | Glue.php:39-42 | stores exactly one row `(controller, args)` under `"#^" + baseUrl + pattern + "/?$#i"`, overwriting an existing key in place; the rest of the table and the other fields are unchanged |
| `Router.Glue.AddRoutes` | Glue.php:54-63 | the table becomes the old one with each batch entry assigned in order, split as `RouteOf` says |
| `Router.Glue.SetMethodTranslator` | Glue.php:97-99 | installs the translator and leaves the routes alone |
| `Router.Glue.Stick` | Glue.php:111-156 | sorts the table in place (same mapping, descending keys), then returns exactly the outcome `Dispatch` specifies for the resolved path and translated method |
| `Router.RouteRequest` | Glue.php:72-78 | on a router built by `new Glue`, the handler method is the request's HTTP method until `setMethodTranslator(f)`, and `f` of it afterwards; an ambient untranslated method has no lower-case letter |
| `LegacyRouter.Key` | glue.php:82 | the key is `^`, the quoted base URL, the pattern, then `/?$`, with no delimiters |
| `LegacyRouter.Delimit` | glue.php:44 | the regex matched is the key between `#` delimiters followed by the `i` flag |
| `LegacyRouter.KeyInjective` | glue.php:82 | two patterns get the same undelimited key exactly when they are the same pattern |
| `LegacyRouter.KeyOrder` | glue.php:82 | keys compare as their patterns with `/?$` appended compare |
| `LegacyRouter.DelimitedKeyIsCurrentKey` | glue.php:44 | the regex matched for a stored key, `"#" + key + "#i"`, is the key the newer variant stores for the same pattern |
| `LegacyRouter.KeyForInjective` | glue.php:82 | the undelimited key building files no two patterns under one key, so `Routing.AddRoutesLastWriteWins` applies to it |
| `LegacyRouter.Resolve` | glue.php:45-73 | the matched route alone decides: missing class (always so for a null controller), then missing method (reported with the HTTP method and the constructor arguments), otherwise a call with the bound arguments, with no visibility check |
| `LegacyRouter.ResolveDiffersOnlyInVisibility` | glue.php:52-70 | this variant calls the method exactly where the newer one calls it or refuses it as not accessible, makes the same call where the newer one calls, and reports the newer one's missing method with the HTTP method |
| `LegacyRouter.Dispatch` | glue.php:43-77 | `UrlNotFound(path)` exactly when no delimited key matches; a call names the method looked up, a missing method names the HTTP method, and both carry the constructor arguments of a matching route |
| `LegacyRouter.StickPicksGreatestMatch` | glue.php:41-44 | after sorting, the outcome is decided by the greatest key whose delimited regex matches |
| `LegacyRouter.StickNotFoundIffNoMatch` | glue.php:43-77 | `UrlNotFound(path)` is raised exactly when no delimited key matches |
| `LegacyRouter.DispatchNoFallThrough` | glue.php:43-75 | once an entry matches, routes after it never change the outcome |
| `LegacyRouter.Glue.constructor` | glue.php:24-26 | the base URL is stored quoted; no routes and no translator |
| `LegacyRouter.Glue.AddRoute` | glue.php:81-84 | stores exactly one row under `"^" + baseUrl + pattern + "/?$"`, overwriting an existing key in place; nothing else changes |
| `LegacyRouter.Glue.AddRoutes` | glue.php:87-96 | the table becomes the old one with each batch entry assigned in order, split into head and tail |
| `LegacyRouter.Glue.SetMethodTranslator` | glue.php:99-101 | installs the translator and leaves the routes alone |
| `LegacyRouter.Glue.Stick` | glue.php:38-78 | sorts the table in place (same mapping, descending keys), then returns exactly the outcome `Dispatch` specifies, matching each key with `#` delimiters and the `i` flag added |
| `LegacyRouter.RouteRequest` | glue.php:104-110 | on a router built by `new Glue`, the handler method is the request's HTTP method until `setMethodTranslator(f)`, and `f` of it afterwards; a missing method is reported with the untranslated HTTP method |

## Left out

- PCRE matching is not modelled: case-insensitivity, the `/?` trailing-slash tolerance, capture numbering and malformed-pattern warnings all stay inside the `pcre` parameter. The model proves facts about the key strings that are built and about the order in which they are tried.
- `preg_quote`'s escape set (Glue.php:24, glue.php:25) is the `quote` parameter of the constructor.
- Reflection and class loading are left out. That covers autoloading, case-insensitive class and method names, constructor failures in `newInstanceArgs`, and the handler bodies run by `invokeArgs`. They stand behind the `classes` parameter, and the call is returned as data.
- The translator is a pure function value. Side effects of a user callback, and the fact that PHP calls it only after the class is found, are not modelled.
- A missing `$_SERVER` entry is not modelled. The two entries are plain strings in `Server`.
- Route values are limited to null, strings and lists. Numbers, booleans, objects and arrays with string keys (which PHP 8 would pass as named constructor arguments) are left out.
- Routing.LookupClass: an array used as controller name is reported as "class not found". PHP 8 raises a `TypeError` from `class_exists` there instead, which the model does not distinguish.
- LegacyRouter.Resolve: before PHP 8.1, its `Invoked` of a method that is not public ends in a `ReflectionException` from `invokeArgs`; the model follows PHP 8.1 and later, where the call goes through.
- Strings are sequences of Unicode characters compared by code point, which agrees with byte order on UTF-8. Byte strings that are not UTF-8 are left out.
- `krsort` compares keys with numeric-string rules only when both keys are numeric. Every key here starts with `#` or `^`, so byte order is exact.
- Concurrent mutation during dispatch is out of scope. The router runs on one thread.
