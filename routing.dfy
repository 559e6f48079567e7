/** What both variants of the Glue router share: the route table as an
    ordered PHP array, `krsort`, the scan for the first matching route,
    binding captures to handler parameters, method translation and
    `removeQueryString`. */
module Routing {
  import opened Php

  /** The `$matches` array of `preg_match`: group name or number (written in
      decimal) to captured text. */
  type Captures = map<string, string>

  /** `preg_match(pattern, subject)`: the captures when the pattern matches,
      None when it does not (or when PCRE reports an error, which `if` reads
      as false). */
  type Engine = (string, string) -> Option<Captures>

  /** One row of `$routes`: the controller and its constructor arguments. */
  datatype Route = Route(controller: Value, args: seq<Value>)

  /** A key of `$routes` together with its row. */
  datatype Entry = Entry(key: string, route: Route)

  /** What reflection reports about one method of a controller class. */
  datatype MethodInfo = MethodInfo(isPublic: bool, params: seq<string>)

  /** What reflection reports about a controller class: its methods by name. */
  datatype ClassInfo = ClassInfo(methods: string -> Option<MethodInfo>)

  /** `class_exists` followed by `new ReflectionClass`: the class by name. */
  type Classes = string -> Option<ClassInfo>

  /** One element of `$methodArgs`. */
  datatype Arg = NullArg | AllCaptures(captures: Captures) | Capture(text: string)

  /** The two `$_SERVER` entries the router reads. */
  datatype Server = Server(requestUri: string, requestMethod: string)

  // ---------------------------------------------------------------------
  // The route table: a PHP array is an ordered sequence of distinct keys.

  predicate DistinctKeys(s: seq<Entry>)
  {
    forall i, j :: 0 <= i < j < |s| ==> s[i].key != s[j].key
  }

  /** The key-to-row mapping an ordered table denotes. */
  function ToMap(s: seq<Entry>): map<string, Route>
  {
    if s == [] then map[] else ToMap(s[1..])[s[0].key := s[0].route]
  }

  lemma {:induction false} ToMapDomain(s: seq<Entry>, k: string)
    ensures k in ToMap(s) <==> exists i :: 0 <= i < |s| && s[i].key == k
    decreases |s|
  {
    if s != [] {
      ToMapDomain(s[1..], k);
      if k in ToMap(s[1..]) {
        var i :| 0 <= i < |s[1..]| && s[1..][i].key == k;
        assert s[i + 1].key == k;
      }
      forall i | 1 <= i < |s| && s[i].key == k
        ensures k in ToMap(s[1..])
      {
        assert s[1..][i - 1].key == k;
      }
    }
  }

  /** In a table without duplicate keys every row is what its key maps to. */
  lemma {:induction false} ToMapAt(s: seq<Entry>, i: nat)
    requires DistinctKeys(s) && i < |s|
    ensures s[i].key in ToMap(s) && ToMap(s)[s[i].key] == s[i].route
    decreases |s|
  {
    if i > 0 {
      ToMapAt(s[1..], i - 1);
    }
  }

  /** An entry belongs to a table without duplicate keys exactly when the
      table maps its key to its row. */
  lemma {:induction false} EntryInTable(s: seq<Entry>, e: Entry)
    requires DistinctKeys(s)
    ensures e in s <==> e.key in ToMap(s) && ToMap(s)[e.key] == e.route
  {
    ToMapDomain(s, e.key);
    if e.key in ToMap(s) {
      var i :| 0 <= i < |s| && s[i].key == e.key;
      ToMapAt(s, i);
      if e in s {
        var j :| 0 <= j < |s| && s[j] == e;
        assert i == j;
      }
    }
  }

  /** `$routes[$k] = $r`: an existing key keeps its position and gets the new
      row, a new key is appended. */
  function Put(s: seq<Entry>, k: string, r: Route): (t: seq<Entry>)
    ensures |t| == |s| || |t| == |s| + 1
    ensures |t| == |s| + 1 <==> forall i :: 0 <= i < |s| ==> s[i].key != k
    ensures |t| == |s| + 1 ==> t[|t| - 1] == Entry(k, r)
    ensures forall i :: 0 <= i < |s| && s[i].key != k ==> t[i] == s[i]
  {
    if s == [] then [Entry(k, r)]
    else if s[0].key == k then [Entry(k, r)] + s[1..]
    else [s[0]] + Put(s[1..], k, r)
  }

  /** An existing key gets the new row at its own position. */
  lemma {:induction false} PutReplaces(s: seq<Entry>, k: string, r: Route, i: nat)
    requires DistinctKeys(s) && i < |s| && s[i].key == k
    ensures Put(s, k, r)[i] == Entry(k, r)
    decreases i
  {
    if i > 0 {
      assert s[0].key != k;
      PutReplaces(s[1..], k, r, i - 1);
      assert Put(s, k, r) == [s[0]] + Put(s[1..], k, r);
    }
  }

  /** Assignment replaces the row of an existing key in place, appends a new
      key at the end, and touches no other position. */
  lemma PutShape(s: seq<Entry>, k: string, r: Route)
    requires DistinctKeys(s)
    ensures |Put(s, k, r)| == if k in ToMap(s) then |s| else |s| + 1
    ensures forall i :: 0 <= i < |s| ==>
      Put(s, k, r)[i] == if s[i].key == k then Entry(k, r) else s[i]
    ensures k !in ToMap(s) ==> Put(s, k, r)[|s|] == Entry(k, r)
  {
    ToMapDomain(s, k);
    forall i | 0 <= i < |s| && s[i].key == k
      ensures Put(s, k, r)[i] == Entry(k, r)
    {
      PutReplaces(s, k, r, i);
    }
  }

  /** Every old position keeps its key. */
  lemma {:induction false} PutKeyAt(s: seq<Entry>, k: string, r: Route, i: nat)
    requires i < |s|
    ensures Put(s, k, r)[i].key == s[i].key
    decreases i
  {
    if i > 0 && s[0].key != k {
      PutKeyAt(s[1..], k, r, i - 1);
      assert Put(s, k, r)[i] == Put(s[1..], k, r)[i - 1];
    }
  }

  /** Updates at two different keys commute. */
  lemma UpdatesCommute(m: map<string, Route>, a: string, x: Route, b: string, y: Route)
    requires a != b
    ensures m[a := x][b := y] == m[b := y][a := x]
  {
  }

  /** The mapping after an assignment is the old one with `k` bound to `r`. */
  lemma {:induction false} PutMap(s: seq<Entry>, k: string, r: Route)
    ensures ToMap(Put(s, k, r)) == ToMap(s)[k := r]
    decreases |s|
  {
    if s != [] {
      var m := ToMap(s[1..]);
      assert ToMap(s) == m[s[0].key := s[0].route];
      if s[0].key == k {
        assert Put(s, k, r)[1..] == s[1..];
        assert ToMap(Put(s, k, r)) == m[k := r];
      } else {
        var t := Put(s[1..], k, r);
        PutMap(s[1..], k, r);
        assert Put(s, k, r)[1..] == t;
        assert ToMap(Put(s, k, r)) == m[k := r][s[0].key := s[0].route];
        UpdatesCommute(m, k, r, s[0].key, s[0].route);
      }
    }
  }

  /** Assignment keeps keys distinct; the new mapping is the old one with
      `k` bound to `r` (last write wins, everything else unchanged). */
  lemma PutTable(s: seq<Entry>, k: string, r: Route)
    requires DistinctKeys(s)
    ensures DistinctKeys(Put(s, k, r))
    ensures ToMap(Put(s, k, r)) == ToMap(s)[k := r]
  {
    var t := Put(s, k, r);
    forall i, j | 0 <= i < j < |t|
      ensures t[i].key != t[j].key
    {
      PutKeyAt(s, k, r, i);
      if j < |s| {
        PutKeyAt(s, k, r, j);
      }
    }
    PutMap(s, k, r);
  }

  /** A run of assignments, applied in order. */
  function PutAll(s: seq<Entry>, es: seq<Entry>): seq<Entry>
    decreases |es|
  {
    if es == [] then s
    else Put(PutAll(s, es[..|es| - 1]), es[|es| - 1].key, es[|es| - 1].route)
  }

  lemma {:induction false} PutAllDistinct(s: seq<Entry>, es: seq<Entry>)
    requires DistinctKeys(s)
    ensures DistinctKeys(PutAll(s, es))
    decreases |es|
  {
    if es != [] {
      PutAllDistinct(s, es[..|es| - 1]);
      PutTable(PutAll(s, es[..|es| - 1]), es[|es| - 1].key, es[|es| - 1].route);
    }
  }

  /** After a run of assignments a key holds the row of its last assignment. */
  lemma {:induction false} PutAllLastWins(s: seq<Entry>, es: seq<Entry>, i: nat)
    requires DistinctKeys(s) && i < |es|
    requires forall j :: i < j < |es| ==> es[j].key != es[i].key
    ensures es[i].key in ToMap(PutAll(s, es))
    ensures ToMap(PutAll(s, es))[es[i].key] == es[i].route
    decreases |es|
  {
    var n := |es| - 1;
    var before := PutAll(s, es[..n]);
    assert PutAll(s, es) == Put(before, es[n].key, es[n].route);
    PutMap(before, es[n].key, es[n].route);
    if i < n {
      var head := es[..n];
      assert head[i] == es[i];
      forall j | i < j < |head|
        ensures head[j].key != head[i].key
      {
        assert head[j] == es[j];
      }
      PutAllLastWins(s, head, i);
      assert es[n].key != es[i].key;
    }
  }

  /** A key no assignment names keeps its presence and its row. */
  lemma {:induction false} PutAllUntouched(s: seq<Entry>, es: seq<Entry>, k: string)
    requires DistinctKeys(s)
    requires forall j :: 0 <= j < |es| ==> es[j].key != k
    ensures k in ToMap(PutAll(s, es)) <==> k in ToMap(s)
    ensures k in ToMap(s) ==> ToMap(PutAll(s, es))[k] == ToMap(s)[k]
    decreases |es|
  {
    if es != [] {
      var n := |es| - 1;
      PutAllDistinct(s, es[..n]);
      PutTable(PutAll(s, es[..n]), es[n].key, es[n].route);
      PutAllUntouched(s, es[..n], k);
    }
  }

  // ---------------------------------------------------------------------
  // krsort: the table reordered by descending key.

  /** Keys strictly decrease from the front to the back. */
  predicate Descending(s: seq<Entry>)
  {
    forall i, j :: 0 <= i < j < |s| ==> Below(s[j].key, s[i].key)
  }

  lemma DescendingDistinct(s: seq<Entry>)
    requires Descending(s)
    ensures DistinctKeys(s)
  {
    forall i, j | 0 <= i < j < |s|
      ensures s[i].key != s[j].key
    {
      BelowIrreflexive(s[i].key);
    }
  }

  /** Places `e` in front of the first entry whose key is below its own. */
  function Insert(e: Entry, s: seq<Entry>): seq<Entry>
  {
    if s == [] then [e]
    else if Below(s[0].key, e.key) then [e] + s
    else [s[0]] + Insert(e, s[1..])
  }

  /** `krsort`: the same entries, greatest key first. */
  function SortDesc(s: seq<Entry>): (t: seq<Entry>)
    ensures multiset(t) == multiset(s)
  {
    if s == [] then []
    else
      var rest := SortDesc(s[1..]);
      InsertMultiset(s[0], rest);
      assert s == [s[0]] + s[1..];
      Insert(s[0], rest)
  }

  lemma {:induction false} InsertMultiset(e: Entry, s: seq<Entry>)
    ensures multiset(Insert(e, s)) == multiset(s) + multiset{e}
    decreases |s|
  {
    if s != [] && !Below(s[0].key, e.key) {
      InsertMultiset(e, s[1..]);
      assert s == [s[0]] + s[1..];
    }
  }

  lemma {:induction false} InsertTable(e: Entry, s: seq<Entry>)
    requires forall i :: 0 <= i < |s| ==> s[i].key != e.key
    ensures ToMap(Insert(e, s)) == ToMap(s)[e.key := e.route]
    decreases |s|
  {
    if s == [] {
    } else if Below(s[0].key, e.key) {
      assert ([e] + s)[1..] == s;
    } else {
      InsertTable(e, s[1..]);
      assert ([s[0]] + Insert(e, s[1..]))[1..] == Insert(e, s[1..]);
    }
  }

  lemma {:induction false} InsertDescending(e: Entry, s: seq<Entry>)
    requires Descending(s)
    requires forall i :: 0 <= i < |s| ==> s[i].key != e.key
    ensures Descending(Insert(e, s))
    decreases |s|
  {
    if s == [] {
    } else if Below(s[0].key, e.key) {
      forall j | 0 < j < |s| + 1
        ensures Below(([e] + s)[j].key, e.key)
      {
        BelowTransitive(s[j - 1].key, s[0].key, e.key);
      }
    } else {
      var t := Insert(e, s[1..]);
      InsertDescending(e, s[1..]);
      InsertMultiset(e, s[1..]);
      BelowTotal(s[0].key, e.key);
      forall x | x in t
        ensures Below(x.key, s[0].key)
      {
        assert x in multiset(t);
      }
      forall i, j | 0 <= i < j < |[s[0]] + t|
        ensures Below(([s[0]] + t)[j].key, ([s[0]] + t)[i].key)
      {
        if i == 0 {
          assert t[j - 1] in t;
        }
      }
    }
  }

  /** `krsort` leaves a table whose keys strictly descend, holding exactly the
      entries it held before, so the key-to-row mapping is unchanged. */
  lemma {:induction false} SortDescSpec(s: seq<Entry>)
    requires DistinctKeys(s)
    ensures Descending(SortDesc(s))
    ensures multiset(SortDesc(s)) == multiset(s)
    ensures ToMap(SortDesc(s)) == ToMap(s)
    decreases |s|
  {
    if s != [] {
      var t := SortDesc(s[1..]);
      SortDescSpec(s[1..]);
      forall i | 0 <= i < |t|
        ensures t[i].key != s[0].key
      {
        assert t[i] in multiset(s[1..]);
        var k :| 0 <= k < |s[1..]| && s[1..][k] == t[i];
        assert s[k + 1] == t[i];
      }
      InsertDescending(s[0], t);
      InsertTable(s[0], t);
    }
  }

  lemma HeadIn(b: seq<Entry>)
    ensures b != [] ==> b[0] in b
  {
  }

  /** Two descending tables with the same entries are the same table. */
  lemma {:induction false} DescendingUnique(a: seq<Entry>, b: seq<Entry>)
    requires Descending(a) && Descending(b)
    requires forall e :: e in a <==> e in b
    ensures a == b
    decreases |a|
  {
    if a == [] {
      HeadIn(b);
    } else {
      assert a[0] in b;
      assert b[0] in a;
      var i :| 0 <= i < |a| && a[i] == b[0];
      var j :| 0 <= j < |b| && b[j] == a[0];
      BelowAsymmetric(a[0].key, b[0].key);
      assert a[0] == b[0];
      forall e
        ensures e in a[1..] <==> e in b[1..]
      {
        if e in a[1..] {
          var k :| 1 <= k < |a| && a[k] == e;
          BelowIrreflexive(a[0].key);
          assert e != b[0];
          assert e in b;
          var m :| 0 <= m < |b| && b[m] == e;
          assert b[1..][m - 1] == e;
        }
        if e in b[1..] {
          var k :| 1 <= k < |b| && b[k] == e;
          BelowIrreflexive(b[0].key);
          assert e != a[0];
          assert e in a;
          var m :| 0 <= m < |a| && a[m] == e;
          assert a[1..][m - 1] == e;
        }
      }
      DescendingUnique(a[1..], b[1..]);
      assert a == [a[0]] + a[1..] && b == [b[0]] + b[1..];
    }
  }

  /** The order `krsort` produces depends on the key-to-row mapping alone,
      not on the order in which routes were added. */
  lemma KrsortCanonical(a: seq<Entry>, b: seq<Entry>)
    requires DistinctKeys(a) && DistinctKeys(b)
    requires ToMap(a) == ToMap(b)
    ensures SortDesc(a) == SortDesc(b)
  {
    SortDescSpec(a);
    SortDescSpec(b);
    forall e
      ensures e in SortDesc(a) <==> e in SortDesc(b)
    {
      assert e in SortDesc(a) <==> e in multiset(SortDesc(a));
      assert e in SortDesc(b) <==> e in multiset(SortDesc(b));
      EntryInTable(a, e);
      EntryInTable(b, e);
    }
    DescendingUnique(SortDesc(a), SortDesc(b));
  }

  // ---------------------------------------------------------------------
  // The scan of `stick`.

  /** The index of the first entry, from `i` on, whose key the matcher accepts. */
  function FirstMatchFrom(s: seq<Entry>, matcher: string -> Option<Captures>, i: nat): (r: Option<nat>)
    requires i <= |s|
    ensures r.Some? ==> i <= r.value < |s| && matcher(s[r.value].key).Some?
    ensures r.Some? ==> forall j :: i <= j < r.value ==> matcher(s[j].key).None?
    ensures r.None? ==> forall j :: i <= j < |s| ==> matcher(s[j].key).None?
    decreases |s| - i
  {
    if i == |s| then None
    else if matcher(s[i].key).Some? then Some(i)
    else FirstMatchFrom(s, matcher, i + 1)
  }

  /** On a descending table the first match is the greatest matching key. */
  lemma FirstMatchIsGreatest(s: seq<Entry>, matcher: string -> Option<Captures>, i: nat)
    requires Descending(s)
    requires FirstMatchFrom(s, matcher, 0) == Some(i)
    ensures forall e :: e in s && matcher(e.key).Some? ==> e == s[i] || Below(e.key, s[i].key)
  {
  }

  /** Entries after a matching one are never looked at. */
  lemma {:induction false} FirstMatchPrefix(s: seq<Entry>, t: seq<Entry>, matcher: string -> Option<Captures>, i: nat)
    requires i <= |s|
    requires FirstMatchFrom(s, matcher, i).Some?
    ensures FirstMatchFrom(s + t, matcher, i) == FirstMatchFrom(s, matcher, i)
    decreases |s| - i
  {
    assert (s + t)[i] == s[i];
    if matcher(s[i].key).None? {
      FirstMatchPrefix(s, t, matcher, i + 1);
    }
  }

  /** After `krsort`, the scan stops at the entry of the greatest matching
      key. */
  lemma SortedScanPicksGreatest(s: seq<Entry>, matcher: string -> Option<Captures>, k: string)
    requires DistinctKeys(s)
    requires k in ToMap(s) && matcher(k).Some?
    requires forall k' :: k' in ToMap(s) && matcher(k').Some? ==> !Below(k, k')
    ensures FirstMatchFrom(SortDesc(s), matcher, 0).Some?
    ensures SortDesc(s)[FirstMatchFrom(SortDesc(s), matcher, 0).value] == Entry(k, ToMap(s)[k])
  {
    var t := SortDesc(s);
    SortDescSpec(s);
    DescendingDistinct(t);
    ToMapDomain(t, k);
    var x :| 0 <= x < |t| && t[x].key == k;
    assert FirstMatchFrom(t, matcher, 0).Some?;
    var i := FirstMatchFrom(t, matcher, 0).value;
    ToMapAt(t, i);
    ToMapAt(t, x);
    FirstMatchIsGreatest(t, matcher, i);
    assert t[x] in t;
    assert t[x] == t[i];
  }

  /** After `krsort`, the scan finds nothing exactly when no key matches. */
  lemma SortedScanFindsNothing(s: seq<Entry>, matcher: string -> Option<Captures>)
    requires DistinctKeys(s)
    ensures FirstMatchFrom(SortDesc(s), matcher, 0).None? <==> forall k :: k in ToMap(s) ==> matcher(k).None?
  {
    var t := SortDesc(s);
    SortDescSpec(s);
    DescendingDistinct(t);
    var r := FirstMatchFrom(t, matcher, 0);
    if r.Some? {
      ToMapAt(t, r.value);
    }
    forall k | k in ToMap(s) && r.None?
      ensures matcher(k).None?
    {
      ToMapDomain(t, k);
      var x :| 0 <= x < |t| && t[x].key == k;
    }
  }

  // ---------------------------------------------------------------------
  // Keys built around a pattern.

  /** Wrapping patterns in the same prefix and suffix keeps them apart. */
  lemma AffixInjective(prefix: string, suffix: string, p1: string, p2: string)
    ensures prefix + p1 + suffix == prefix + p2 + suffix <==> p1 == p2
  {
    if prefix + p1 + suffix == prefix + p2 + suffix {
      var k := prefix + p1 + suffix;
      assert |p1| == |p2|;
      assert p1 == k[|prefix|..|prefix| + |p1|];
      assert p2 == (prefix + p2 + suffix)[|prefix|..|prefix| + |p2|];
    }
  }

  /** A shared prefix never decides how two wrapped patterns compare. */
  lemma AffixOrder(prefix: string, suffix: string, p1: string, p2: string)
    ensures Below(prefix + p1 + suffix, prefix + p2 + suffix) <==> Below(p1 + suffix, p2 + suffix)
  {
    assert prefix + p1 + suffix == prefix + (p1 + suffix);
    assert prefix + p2 + suffix == prefix + (p2 + suffix);
    BelowCommonPrefix(prefix, p1 + suffix, p2 + suffix);
  }

  // ---------------------------------------------------------------------
  // Arguments for the handler.

  /** The argument a parameter named `name` receives. */
  function BindArg(name: string, captures: Captures): Arg
  {
    if name == "matches" then AllCaptures(captures)
    else if name in captures then Capture(captures[name])
    else NullArg
  }

  /** One argument per declared parameter, in declared order: `matches` gets
      the whole capture array, a parameter named like a group gets that
      group's text, any other parameter gets null. */
  function BoundArgs(params: seq<string>, captures: Captures): (r: seq<Arg>)
    ensures |r| == |params|
    ensures forall i :: 0 <= i < |params| && params[i] == "matches" ==> r[i] == AllCaptures(captures)
    ensures forall i :: 0 <= i < |params| && params[i] != "matches" && params[i] in captures ==>
      r[i] == Capture(captures[params[i]])
    ensures forall i :: 0 <= i < |params| && params[i] != "matches" && params[i] !in captures ==>
      r[i] == NullArg
  {
    if params == [] then [] else [BindArg(params[0], captures)] + BoundArgs(params[1..], captures)
  }

  /** The `foreach ($params as $parameter)` loop that fills `$methodArgs`. */
  method BindArguments(params: seq<string>, captures: Captures) returns (args: seq<Arg>)
    ensures args == BoundArgs(params, captures)
  {
    args := [];
    for n := 0 to |params|
      invariant |args| == n
      invariant forall i :: 0 <= i < n ==> args[i] == BindArg(params[i], captures)
    {
      var name := params[n];
      if name == "matches" {
        args := args + [AllCaptures(captures)];
      } else if name in captures {
        args := args + [Capture(captures[name])];
      } else {
        args := args + [NullArg];
      }
    }
  }

  /** The class name `class_exists` receives for a route's controller: a
      string names itself, null reads as the empty name, and an array names
      no class. */
  function ClassName(controller: Value): (name: Option<string>)
    ensures name.None? <==> controller.List?
    ensures name.Some? && name.value != "" ==> controller == Str(name.value)
  {
    match controller
    case Str(s) => Some(s)
    case Null => Some("")
    case List(_) => None
  }

  /** The class a route's controller names, when `class_exists` finds it.
      No class has the empty name, so a null controller (an empty array
      given to `addRoutes`) and "" are never found. */
  function LookupClass(controller: Value, classes: Classes): (info: Option<ClassInfo>)
    ensures controller.Str? && controller.s != "" ==> info == classes(controller.s)
    ensures controller.Null? || controller.List? || controller == Str("") ==> info.None?
    ensures info.Some? ==> ClassName(controller).Some? && ClassName(controller).value != ""
  {
    match ClassName(controller)
    case None => None
    case Some(name) => if name == "" then None else classes(name)
  }

  /** `addRoutes` on one value: an array gives its first element as the
      controller (null when the array is empty, as `array_shift` returns) and
      the remaining elements, in order, as constructor arguments; any other
      value is the controller itself, with no arguments. */
  function RouteOf(v: Value): (r: Route)
    ensures v.List? && v.items != [] ==> [r.controller] + r.args == v.items
    ensures v.List? && v.items == [] ==> r == Route(Null, [])
    ensures !v.List? ==> r == Route(v, [])
  {
    match v
    case List(items) => if items == [] then Route(Null, []) else Route(items[0], items[1..])
    case _ => Route(v, [])
  }

  /** A key-building function that never files two patterns under one key. */
  ghost predicate Injective(key: string -> string)
  {
    forall p1, p2 :: key(p1) == key(p2) ==> p1 == p2
  }

  /** The entries `addRoutes` assigns, in order, when `key` builds the key
      `addRoute` files a pattern under. */
  function Registrations(key: string -> string, batch: seq<(string, Value)>): seq<Entry>
  {
    seq(|batch|, i requires 0 <= i < |batch| => Entry(key(batch[i].0), RouteOf(batch[i].1)))
  }

  /** One more entry of the batch is one more assignment. */
  lemma RegistrationsStep(s: seq<Entry>, key: string -> string, batch: seq<(string, Value)>, n: nat)
    requires n < |batch|
    ensures PutAll(s, Registrations(key, batch[..n + 1])) ==
      Put(PutAll(s, Registrations(key, batch[..n])), key(batch[n].0), RouteOf(batch[n].1))
  {
    var es := Registrations(key, batch[..n + 1]);
    assert es[..n] == Registrations(key, batch[..n]);
  }

  /** After `addRoutes`, a pattern holds the route of its last occurrence in
      the batch, provided keys are built injectively. */
  lemma AddRoutesLastWriteWins(s: seq<Entry>, key: string -> string, batch: seq<(string, Value)>, i: nat)
    requires Injective(key)
    requires DistinctKeys(s) && i < |batch|
    requires forall j :: i < j < |batch| ==> batch[j].0 != batch[i].0
    ensures key(batch[i].0) in ToMap(PutAll(s, Registrations(key, batch)))
    ensures ToMap(PutAll(s, Registrations(key, batch)))[key(batch[i].0)] == RouteOf(batch[i].1)
  {
    var es := Registrations(key, batch);
    forall j | i < j < |es|
      ensures es[j].key != es[i].key
    {
      assert batch[j].0 != batch[i].0;
    }
    PutAllLastWins(s, es, i);
  }

  /** `getControllerMethod`: the HTTP method itself unless a translator is set. */
  function Translate(translator: Option<string -> string>, httpMethod: string): string
  {
    match translator
    case None => httpMethod
    case Some(f) => f(httpMethod)
  }

  // ---------------------------------------------------------------------
  // removeQueryString: `preg_replace('/\?.*$/', '', $uri)`.

  /** A match of `\?.*$` can start at `i`: a `?` with no line break after it,
      except one that ends the subject (`.` stops at a line break, and `$`
      also matches just before a final one). */
  predicate QueryMarkAt(s: string, i: nat)
    requires i < |s|
  {
    s[i] == '?' && forall j :: i < j < |s| && s[j] == '\n' ==> j == |s| - 1
  }

  function FirstQueryMark(s: string, i: nat): (r: Option<nat>)
    requires i <= |s|
    ensures r.Some? ==> i <= r.value < |s| && QueryMarkAt(s, r.value)
    ensures r.Some? ==> forall j :: i <= j < r.value ==> !QueryMarkAt(s, j)
    ensures r.None? ==> forall j :: i <= j < |s| ==> !QueryMarkAt(s, j)
    decreases |s| - i
  {
    if i == |s| then None
    else if QueryMarkAt(s, i) then Some(i)
    else FirstQueryMark(s, i + 1)
  }

  /** The leftmost match runs from its `?` to the end of the subject, or up to
      a final line break, which stays. */
  function RemoveQueryString(uri: string): (r: string)
    ensures r == uri <==> forall j :: 0 <= j < |uri| ==> !QueryMarkAt(uri, j)
    ensures r != uri ==> |r| < |uri|
    ensures r != uri ==> exists i :: 0 <= i <= |r| && i < |uri| && QueryMarkAt(uri, i) && r[..i] == uri[..i]
  {
    match FirstQueryMark(uri, 0)
    case None => uri
    case Some(i) =>
      var r := uri[..i] + (if uri[|uri| - 1] == '\n' then "\n" else "");
      assert |r| < |uri| by {
        if uri[|uri| - 1] == '\n' {
          assert i != |uri| - 1;
        }
      }
      assert r[..i] == uri[..i];
      r
  }

  /** On a URI without line breaks, the result is the part before the first
      `?`, and the URI itself when it has none. */
  lemma RemoveQueryStringCuts(uri: string)
    requires '\n' !in uri
    ensures '?' !in RemoveQueryString(uri)
    ensures |RemoveQueryString(uri)| <= |uri| && RemoveQueryString(uri) == uri[..|RemoveQueryString(uri)|]
    ensures |RemoveQueryString(uri)| < |uri| ==> uri[|RemoveQueryString(uri)|] == '?'
    ensures RemoveQueryString(uri) == uri <==> '?' !in uri
  {
    var r := RemoveQueryString(uri);
    match FirstQueryMark(uri, 0)
    case None =>
      forall j | 0 <= j < |uri|
        ensures uri[j] != '?'
      {
        assert !QueryMarkAt(uri, j);
      }
    case Some(i) =>
      assert uri[i] in uri;
      forall j | 0 <= j < i
        ensures uri[j] != '?'
      {
        assert !QueryMarkAt(uri, j);
        assert forall m :: j < m < |uri| ==> uri[m] != '\n' by {
          forall m | j < m < |uri| ensures uri[m] != '\n' { assert uri[m] in uri; }
        }
      }
      assert uri[|uri| - 1] in uri;
      assert r == uri[..i];
  }

  /** On a URI without line breaks, stripping twice strips nothing more. */
  lemma RemoveQueryStringIdempotent(uri: string)
    requires '\n' !in uri
    ensures RemoveQueryString(RemoveQueryString(uri)) == RemoveQueryString(uri)
  {
    var r := RemoveQueryString(uri);
    RemoveQueryStringCuts(uri);
    assert '\n' !in r by {
      forall m | 0 <= m < |r| ensures r[m] != '\n' { assert uri[m] in uri; }
    }
    RemoveQueryStringCuts(r);
  }

  /** With a line break inside, stripping is not idempotent: the first pass
      cuts at the `?` after the break, leaving a final line break behind which
      an earlier `?` now qualifies. */
  lemma RemoveQueryStringLineBreak()
    ensures RemoveQueryString("a?b\n?c") == "a?b\n"
    ensures RemoveQueryString("a?b\n") == "a\n"
  {
    var s, t := "a?b\n?c", "a?b\n";
    assert s[3] == '\n' && !QueryMarkAt(s, 1);
    assert QueryMarkAt(s, 4);
    assert FirstQueryMark(s, 0) == Some(4);
    assert QueryMarkAt(t, 1);
    assert FirstQueryMark(t, 0) == Some(1);
  }

  // ---------------------------------------------------------------------
  // The request the router falls back to.

  /** `$path ?: self::removeQueryString($_SERVER['REQUEST_URI'])`. */
  function RequestPath(path: Option<string>, server: Server): (p: string)
    ensures path.Some? && Truthy(path.value) ==> p == path.value
    ensures !(path.Some? && Truthy(path.value)) ==> |p| <= |server.requestUri|
    ensures !(path.Some? && Truthy(path.value)) && '\n' !in server.requestUri ==>
      && '?' !in p && p == server.requestUri[..|p|]
      && (|p| < |server.requestUri| ==> server.requestUri[|p|] == '?')
      && (p == server.requestUri <==> '?' !in server.requestUri)
  {
    if path.Some? && Truthy(path.value) then path.value
    else
      var uri := server.requestUri;
      var r := RemoveQueryString(uri);
      assert '\n' !in uri ==>
        && '?' !in r && r == uri[..|r|]
        && (|r| < |uri| ==> uri[|r|] == '?')
        && (r == uri <==> '?' !in uri) by {
        if '\n' !in uri {
          RemoveQueryStringCuts(uri);
        }
      }
      r
  }

  /** `$httpMethod ?: strtoupper($_SERVER['REQUEST_METHOD'])`. */
  function RequestMethod(httpMethod: Option<string>, server: Server): (m: string)
    ensures httpMethod.Some? && Truthy(httpMethod.value) ==> m == httpMethod.value
    ensures !(httpMethod.Some? && Truthy(httpMethod.value)) ==>
      && |m| == |server.requestMethod|
      && (forall i :: 0 <= i < |m| ==> m[i] == UpperChar(server.requestMethod[i]))
      && (forall i :: 0 <= i < |m| ==> !IsLowerAscii(m[i]))
  {
    if httpMethod.Some? && Truthy(httpMethod.value) then httpMethod.value else StrToUpper(server.requestMethod)
  }

  /** Without an explicit path (or with "" or "0"), the router routes the
      request URI minus its query string. */
  lemma AmbientPathDropsQuery(path: Option<string>, server: Server, u: string, q: string)
    requires path.None? || !Truthy(path.value)
    requires server.requestUri == u + "?" + q
    requires '?' !in u && '\n' !in u && '\n' !in q
    ensures RequestPath(path, server) == u
  {
    var uri := u + "?" + q;
    forall m | 0 <= m < |uri|
      ensures uri[m] != '\n' && (m < |u| ==> uri[m] != '?')
    {
      if m < |u| {
        assert uri[m] == u[m] && u[m] in u;
      } else if m > |u| {
        assert uri[m] == q[m - |u| - 1] && q[m - |u| - 1] in q;
      }
    }
    assert QueryMarkAt(uri, |u|);
    assert FirstQueryMark(uri, 0) == Some(|u|);
    assert uri[..|u|] == u;
  }
}
