/** Looking for fonts that are used but not embedded: a walk over the graph of a page's resources. */
module Fonts {
  import opened Wrappers
  import opened Documents

  const BASE_FONT := "/BaseFont"
  const FONT_NAME := "/FontName"

  /** What a reference stands for; a dangling one is PDF's null. */
  function Resolve(objects: map<nat, Obj>, o: Obj): Obj {
    match o
    case Indirect(id) => if id in objects then objects[id] else Atom("null")
    case _ => o
  }

  /** What a dictionary can say of a font: that it is used, or that it is embedded. */
  datatype Role = Used | Embedded

  /** The font a dictionary uses, or the one it embeds: that needs a name and a font file. */
  function FontOf(role: Role, objects: map<nat, Obj>, o: Obj): set<Obj> {
    if !o.Dictionary? then {}
    else match role
         case Used => if BASE_FONT in o.entries then {Resolve(objects, o.entries[BASE_FONT])} else {}
         case Embedded =>
           if && FONT_NAME in o.entries
              && ("/FontFile" in o.entries || "/FontFile2" in o.entries || "/FontFile3" in o.entries)
           then {Resolve(objects, o.entries[FONT_NAME])}
           else {}
  }

  function ValuesOf(objects: map<nat, Obj>, entries: map<string, Obj>, keys: set<string>): set<Obj> {
    set k | k in keys && k in entries :: Resolve(objects, entries[k])
  }

  function ItemsOf(items: seq<Obj>): set<Obj> {
    set item | item in items
  }

  /** Where the walk goes next. */
  function Children(objects: map<nat, Obj>, o: Obj): set<Obj> {
    match o
    case Dictionary(entries) => set k | k in entries :: Resolve(objects, entries[k])
    case Array(items) => set item | item in items
    case Indirect(_) => {Resolve(objects, o)}
    case Atom(_) => {}
  }

  // ---- What the walk is meant to find ----

  /** A value stands for an object: for what it refers to, PDF's null if there is nothing, or for itself. */
  ghost predicate StandsFor(objects: map<nat, Obj>, value: Obj, o: Obj) {
    if value.Indirect? then o == (if value.id in objects then objects[value.id] else Atom("null")) else o == value
  }

  /** One step of the walk: to what a dictionary's values stand for, to an array's items, or to what is referred to. */
  ghost predicate Leads(objects: map<nat, Obj>, o: Obj, c: Obj) {
    match o
    case Dictionary(entries) => exists k :: k in entries && StandsFor(objects, entries[k], c)
    case Array(items) => c in items
    case Indirect(_) => StandsFor(objects, o, c)
    case Atom(_) => false
  }

  lemma ChildrenAre(objects: map<nat, Obj>, o: Obj, c: Obj)
    ensures c in Children(objects, o) <==> Leads(objects, o, c)
  {
  }

  ghost predicate IsPath(objects: map<nat, Obj>, path: seq<Obj>, from: Obj) {
    && path != [] && path[0] == from
    && forall i, j :: 0 <= i < j < |path| && j == i + 1 ==> path[j] in Children(objects, path[i])
  }

  ghost predicate Reachable(objects: map<nat, Obj>, from: Obj, to: Obj) {
    exists path :: IsPath(objects, path, from) && path[|path| - 1] == to
  }

  /** A path is a sequence of steps of the walk. */
  lemma PathsAre(objects: map<nat, Obj>, path: seq<Obj>, from: Obj)
    ensures IsPath(objects, path, from) <==>
            && path != [] && path[0] == from
            && forall i, j :: 0 <= i < j < |path| && j == i + 1 ==> Leads(objects, path[i], path[j])
  {
    forall i, j | 0 <= i < j < |path| && j == i + 1
      ensures path[j] in Children(objects, path[i]) <==> Leads(objects, path[i], path[j])
    {
      ChildrenAre(objects, path[i], path[j]);
    }
  }

  /** A dictionary that names the font it uses. */
  ghost predicate UsesFont(objects: map<nat, Obj>, o: Obj, font: Obj) {
    o.Dictionary? && "/BaseFont" in o.entries && StandsFor(objects, o.entries["/BaseFont"], font)
  }

  /** A dictionary that names a font and has a file for it, of any of the three kinds. */
  ghost predicate EmbedsFont(objects: map<nat, Obj>, o: Obj, font: Obj) {
    && o.Dictionary? && "/FontName" in o.entries && StandsFor(objects, o.entries["/FontName"], font)
    && ("/FontFile" in o.entries || "/FontFile2" in o.entries || "/FontFile3" in o.entries)
  }

  lemma FontOfIs(role: Role, objects: map<nat, Obj>, o: Obj, font: Obj)
    ensures font in FontOf(role, objects, o) <==>
            if role.Used? then UsesFont(objects, o, font) else EmbedsFont(objects, o, font)
  {
  }

  /** Some dictionary that can be reached from the root says so of the font. */
  ghost predicate Says(role: Role, objects: map<nat, Obj>, root: Obj, font: Obj) {
    exists o :: Reachable(objects, root, o) && if role.Used? then UsesFont(objects, o, font) else EmbedsFont(objects, o, font)
  }

  // ---- The walk ----

  /** The recursion of the walk stays within the given number of nested calls. */
  predicate Returns(objects: map<nat, Obj>, o: Obj, limit: nat)
    decreases limit
  {
    limit > 0 && forall c | c in Children(objects, o) :: Returns(objects, c, limit - 1)
  }

  function Found(role: Role, objects: map<nat, Obj>, o: Obj, limit: nat): set<Obj>
    decreases limit, 0
  {
    if limit == 0 then {}
    else FontOf(role, objects, o) + FoundInAny(role, objects, Children(objects, o), limit - 1)
  }

  function FoundInAny(role: Role, objects: map<nat, Obj>, os: set<Obj>, limit: nat): set<Obj>
    decreases limit, 1
  {
    set o, f | o in os && f in Found(role, objects, o, limit) :: f
  }

  lemma OneMore(role: Role, objects: map<nat, Obj>, os: set<Obj>, o: Obj, limit: nat)
    ensures FoundInAny(role, objects, os + {o}, limit)
         == FoundInAny(role, objects, os, limit) + Found(role, objects, o, limit)
  {
  }

  lemma OnlyOne(role: Role, objects: map<nat, Obj>, o: Obj, limit: nat)
    ensures FoundInAny(role, objects, {o}, limit) == Found(role, objects, o, limit)
  {
  }

  lemma OneMoreValue(objects: map<nat, Obj>, entries: map<string, Obj>, keys: set<string>, k: string)
    requires k in entries
    ensures ValuesOf(objects, entries, keys + {k}) == ValuesOf(objects, entries, keys) + {Resolve(objects, entries[k])}
  {
  }

  /** A dictionary's values, in any order of its keys; several keys may lead to the same object. */
  method ListValues(objects: map<nat, Obj>, entries: map<string, Obj>) returns (values: seq<Obj>)
    ensures ItemsOf(values) == Children(objects, Dictionary(entries)) && |values| == |entries|
  {
    values := [];
    var todo := entries.Keys;
    while todo != {}
      invariant todo <= entries.Keys && |values| + |todo| == |entries.Keys|
      invariant ItemsOf(values) == ValuesOf(objects, entries, entries.Keys - todo)
      decreases |todo|
    {
      var k :| k in todo;
      OneMoreValue(objects, entries, entries.Keys - todo, k);
      assert entries.Keys - (todo - {k}) == (entries.Keys - todo) + {k};
      ghost var before := values;
      values := values + [Resolve(objects, entries[k])];
      OneMoreItem(values, |before|);
      assert values[..|before|] == before && values[..|before| + 1] == values;
      todo := todo - {k};
    }
    assert entries.Keys - {} == entries.Keys;
  }

  /** What a call adds is what its object says and what its children add. */
  lemma FoundIs(role: Role, objects: map<nat, Obj>, o: Obj, limit: nat, before: set<Obj>)
    requires limit > 0
    ensures before + FontOf(role, objects, o) + FoundInAny(role, objects, Children(objects, o), limit - 1)
         == before + Found(role, objects, o, limit)
  {
  }

  lemma FoundInOneMore(role: Role, objects: map<nat, Obj>, items: seq<Obj>, i: nat, limit: nat, before: set<Obj>)
    requires i < |items|
    ensures before + FoundInAny(role, objects, ItemsOf(items[..i]), limit) + Found(role, objects, items[i], limit)
         == before + FoundInAny(role, objects, ItemsOf(items[..i + 1]), limit)
  {
    OneMoreItem(items, i);
    OneMore(role, objects, ItemsOf(items[..i]), items[i], limit);
  }

  lemma OneMoreItem(items: seq<Obj>, i: nat)
    requires i < |items|
    ensures ItemsOf(items[..i + 1]) == ItemsOf(items[..i]) + {items[i]}
  {
    assert items[..i + 1] == items[..i] + [items[i]];
  }

  ghost predicate AllReturn(objects: map<nat, Obj>, os: set<Obj>, limit: nat) {
    forall c :: c in os ==> Returns(objects, c, limit)
  }

  /** The two sets the walk adds to. */
  class FontSets {
    var fonts: set<Obj>
    var embedded: set<Obj>

    constructor ()
      ensures fonts == {} && embedded == {}
    {
      fonts, embedded := {}, {};
    }

    /** The nested function walk; false is Python's RecursionError. */
    method Walk(objects: map<nat, Obj>, o: Obj, limit: nat) returns (ok: bool)
      modifies this
      ensures ok == Returns(objects, o, limit)
      ensures ok ==> fonts == old(fonts) + Found(Used, objects, o, limit)
      ensures ok ==> embedded == old(embedded) + Found(Embedded, objects, o, limit)
      decreases limit, 0
    {
      if limit == 0 {
        return false;
      }
      FoundIs(Used, objects, o, limit, fonts);
      FoundIs(Embedded, objects, o, limit, embedded);
      fonts := fonts + FontOf(Used, objects, o);
      embedded := embedded + FontOf(Embedded, objects, o);
      ok := WalkInto(objects, o, limit - 1);
    }

    /** The branches on what kind of object it is. */
    method WalkInto(objects: map<nat, Obj>, o: Obj, limit: nat) returns (ok: bool)
      modifies this
      ensures ok == AllReturn(objects, Children(objects, o), limit)
      ensures ok ==> fonts == old(fonts) + FoundInAny(Used, objects, Children(objects, o), limit)
      ensures ok ==> embedded == old(embedded) + FoundInAny(Embedded, objects, Children(objects, o), limit)
      decreases limit, 2
    {
      match o {
        case Dictionary(entries) =>
          var values := ListValues(objects, entries);
          ok := WalkItems(objects, values, limit);
        case Array(items) =>
          ok := WalkItems(objects, items, limit);
        case Indirect(_) =>
          OnlyOne(Used, objects, Resolve(objects, o), limit);
          OnlyOne(Embedded, objects, Resolve(objects, o), limit);
          ok := Walk(objects, Resolve(objects, o), limit);
        case Atom(_) =>
          ok := true;
      }
    }

    /** The loops over a dictionary's values and an array's items, in order; an item may occur more than once. */
    method WalkItems(objects: map<nat, Obj>, items: seq<Obj>, limit: nat) returns (ok: bool)
      modifies this
      ensures ok == AllReturn(objects, ItemsOf(items), limit)
      ensures ok ==> fonts == old(fonts) + FoundInAny(Used, objects, ItemsOf(items), limit)
      ensures ok ==> embedded == old(embedded) + FoundInAny(Embedded, objects, ItemsOf(items), limit)
      decreases limit, 1
    {
      for i := 0 to |items|
        invariant AllReturn(objects, ItemsOf(items[..i]), limit)
        invariant fonts == old(fonts) + FoundInAny(Used, objects, ItemsOf(items[..i]), limit)
        invariant embedded == old(embedded) + FoundInAny(Embedded, objects, ItemsOf(items[..i]), limit)
      {
        var returned := Walk(objects, items[i], limit);
        if !returned {
          return false;
        }
        FoundInOneMore(Used, objects, items, i, limit, old(fonts));
        FoundInOneMore(Embedded, objects, items, i, limit, old(embedded));
        OneMoreItem(items, i);
      }
      assert items[..|items|] == items;
      ok := true;
    }
  }

  /** The walk returns exactly when no path from where it starts is longer than Python may recurse. */
  lemma {:induction false} ReturnsIff(objects: map<nat, Obj>, o: Obj, limit: nat)
    ensures Returns(objects, o, limit) <==> forall path :: IsPath(objects, path, o) ==> |path| <= limit
    decreases limit
  {
    if limit == 0 {
      assert IsPath(objects, [o], o);
    } else {
      forall c | c in Children(objects, o)
        ensures Returns(objects, c, limit - 1) <==> forall path :: IsPath(objects, path, c) ==> |path| <= limit - 1
      {
        ReturnsIff(objects, c, limit - 1);
      }
      if Returns(objects, o, limit) {
        forall path | IsPath(objects, path, o)
          ensures |path| <= limit
        {
          if |path| > 1 {
            PathTail(objects, path, o);
          }
        }
      } else {
        var c :| c in Children(objects, o) && !Returns(objects, c, limit - 1);
        var path :| IsPath(objects, path, c) && |path| > limit - 1;
        PathCons(objects, o, path, c);
      }
    }
  }

  lemma PathTail(objects: map<nat, Obj>, path: seq<Obj>, from: Obj)
    requires IsPath(objects, path, from) && |path| > 1
    ensures path[1] in Children(objects, from) && IsPath(objects, path[1..], path[1])
  {
    var tail := path[1..];
    forall i, j | 0 <= i < j < |tail| && j == i + 1
      ensures tail[j] in Children(objects, tail[i])
    {
      assert path[j + 1] in Children(objects, path[i + 1]);
    }
  }

  lemma PathCons(objects: map<nat, Obj>, o: Obj, path: seq<Obj>, from: Obj)
    requires IsPath(objects, path, from) && from in Children(objects, o)
    ensures IsPath(objects, [o] + path, o)
  {
  }

  lemma ReachableOnwards(objects: map<nat, Obj>, o: Obj, to: Obj)
    requires Reachable(objects, o, to) && o != to
    ensures exists c :: c in Children(objects, o) && Reachable(objects, c, to)
  {
    var path :| IsPath(objects, path, o) && path[|path| - 1] == to;
    PathTail(objects, path, o);
    assert path[1..][|path[1..]| - 1] == to;
    assert Reachable(objects, path[1], to);
  }

  lemma ReachableFromChild(objects: map<nat, Obj>, o: Obj, c: Obj, to: Obj)
    requires c in Children(objects, o) && Reachable(objects, c, to)
    ensures Reachable(objects, o, to)
  {
    var path :| IsPath(objects, path, c) && path[|path| - 1] == to;
    PathCons(objects, o, path, c);
    assert ([o] + path)[|[o] + path| - 1] == to;
  }

  lemma ReachableStep(objects: map<nat, Obj>, o: Obj, to: Obj)
    ensures Reachable(objects, o, to) <==> o == to || exists c :: c in Children(objects, o) && Reachable(objects, c, to)
  {
    if o == to {
      assert IsPath(objects, [o], o);
    } else if Reachable(objects, o, to) {
      ReachableOnwards(objects, o, to);
    } else if c :| c in Children(objects, o) && Reachable(objects, c, to) {
      ReachableFromChild(objects, o, c, to);
    }
  }

  /** When the walk returns it has found exactly the fonts that can be reached, whatever is shared, nested or indirect. */
  lemma {:induction false} WalkFindsReachable(role: Role, objects: map<nat, Obj>, o: Obj, limit: nat, font: Obj)
    requires Returns(objects, o, limit)
    ensures font in Found(role, objects, o, limit) <==> Says(role, objects, o, font)
    decreases limit
  {
    FontOfIs(role, objects, o, font);
    forall c | c in Children(objects, o)
      ensures font in Found(role, objects, c, limit - 1) <==> Says(role, objects, c, font)
    {
      WalkFindsReachable(role, objects, c, limit - 1, font);
    }
    forall to
      ensures Reachable(objects, o, to) <==> o == to || exists c :: c in Children(objects, o) && Reachable(objects, c, to)
    {
      ReachableStep(objects, o, to);
    }
  }

  // ---- All pages ----

  /** A page's resources, None when it has none. */
  function Root(document: Document, page: Page): Option<Obj> {
    if page.resources.Some? then Some(Resolve(document.objects, page.resources.value)) else None
  }

  predicate PageReturns(document: Document, page: Page, limit: nat) {
    var root := Root(document, page);
    root.Some? && Returns(document.objects, root.value, limit)
  }

  function FoundOnPage(role: Role, document: Document, page: Page, limit: nat): set<Obj> {
    var root := Root(document, page);
    if root.Some? then Found(role, document.objects, root.value, limit) else {}
  }

  function FoundOnPages(role: Role, document: Document, n: nat, limit: nat): set<Obj>
    requires n <= |document.pages|
  {
    if n == 0 then {}
    else FoundOnPages(role, document, n - 1, limit) + FoundOnPage(role, document, document.pages[n - 1], limit)
  }

  /** The fonts used and not embedded; None when a page has no resources or the walk does not return. */
  function Unembedded(document: Document, limit: nat): Option<set<Obj>> {
    var n := |document.pages|;
    if forall i | 0 <= i < n :: PageReturns(document, document.pages[i], limit)
    then Some(FoundOnPages(Used, document, n, limit) - FoundOnPages(Embedded, document, n, limit))
    else None
  }

  method ContainsUnembeddedFonts(document: Document, limit: nat) returns (unembedded: Option<set<Obj>>)
    ensures unembedded == Unembedded(document, limit)
  {
    var sets := new FontSets();
    for n := 0 to |document.pages|
      invariant forall i :: 0 <= i < n ==> PageReturns(document, document.pages[i], limit)
      invariant sets.fonts == FoundOnPages(Used, document, n, limit)
      invariant sets.embedded == FoundOnPages(Embedded, document, n, limit)
    {
      var root := Root(document, document.pages[n]);
      if root.None? {
        return None;
      }
      var ok := sets.Walk(document.objects, root.value, limit);
      if !ok {
        return None;
      }
    }
    unembedded := Some(sets.fonts - sets.embedded);
  }

  /** Some dictionary within reach of the page's resources says so of the font. */
  ghost predicate PageSays(role: Role, document: Document, page: Page, font: Obj) {
    exists root :: page.resources.Some? && StandsFor(document.objects, page.resources.value, root)
                   && Says(role, document.objects, root, font)
  }

  lemma PageSaysIs(role: Role, document: Document, page: Page, font: Obj)
    requires Root(document, page).Some?
    ensures PageSays(role, document, page, font) <==> Says(role, document.objects, Root(document, page).value, font)
  {
    assert StandsFor(document.objects, page.resources.value, Root(document, page).value);
  }

  lemma FontsOfPage(role: Role, document: Document, page: Page, limit: nat, font: Obj)
    requires PageReturns(document, page, limit)
    ensures font in FoundOnPage(role, document, page, limit) <==> PageSays(role, document, page, font)
  {
    WalkFindsReachable(role, document.objects, Root(document, page).value, limit, font);
    PageSaysIs(role, document, page, font);
  }

  lemma {:induction false} FontsOfPages(role: Role, document: Document, n: nat, limit: nat, font: Obj)
    requires n <= |document.pages|
    ensures font in FoundOnPages(role, document, n, limit) <==>
            exists i :: 0 <= i < n && font in FoundOnPage(role, document, document.pages[i], limit)
  {
    if n > 0 {
      FontsOfPages(role, document, n - 1, limit, font);
    }
  }

  /** The answer for a document: the fonts some page uses and no page embeds. */
  lemma UnembeddedIff(document: Document, limit: nat, font: Obj)
    requires Unembedded(document, limit).Some?
    ensures font in Unembedded(document, limit).value <==>
            && (exists i :: 0 <= i < |document.pages| && PageSays(Used, document, document.pages[i], font))
            && !(exists i :: 0 <= i < |document.pages| && PageSays(Embedded, document, document.pages[i], font))
  {
    forall role: Role, i | 0 <= i < |document.pages|
      ensures font in FoundOnPage(role, document, document.pages[i], limit) <==>
              PageSays(role, document, document.pages[i], font)
    {
      FontsOfPage(role, document, document.pages[i], limit, font);
    }
    FontsOfPages(Used, document, |document.pages|, limit, font);
    FontsOfPages(Embedded, document, |document.pages|, limit, font);
  }

  // ---- When the walk returns ----

  /** Ranks that fall along every edge within reach. */
  ghost predicate Ranks(objects: map<nat, Obj>, rank: Obj -> nat, o: Obj) {
    forall x, c :: Reachable(objects, o, x) && c in Children(objects, x) ==> rank(c) < rank(x)
  }

  /** The depth of the walk is bounded by the rank of where it starts. */
  lemma {:induction false} AcyclicReturns(objects: map<nat, Obj>, rank: Obj -> nat, o: Obj, limit: nat)
    requires Ranks(objects, rank, o) && rank(o) < limit
    ensures Returns(objects, o, limit)
    decreases limit
  {
    ReachableStep(objects, o, o);
    forall c | c in Children(objects, o)
      ensures Returns(objects, c, limit - 1)
    {
      assert rank(c) < rank(o);
      forall x | Reachable(objects, c, x)
        ensures Reachable(objects, o, x)
      {
        ReachableFromChild(objects, o, c, x);
      }
      AcyclicReturns(objects, rank, c, limit - 1);
    }
  }

  /** Nothing within reach leads back to itself. */
  ghost predicate Acyclic(objects: map<nat, Obj>, o: Obj) {
    forall x, c :: Reachable(objects, o, x) && c in Children(objects, x) ==> !Reachable(objects, c, x)
  }

  /** An object and what is nested in it, to any depth. */
  function Parts(o: Obj): set<Obj> {
    match o
    case Dictionary(entries) => {o} + set k, p | k in entries && p in Parts(entries[k]) :: p
    case Array(items) => {o} + set item, p | item in items && p in Parts(item) :: p
    case Indirect(_) => {o}
    case Atom(_) => {o}
  }

  /** Everything a walk may meet: the parts of where it starts and of all objects, and null. */
  function Nodes(objects: map<nat, Obj>, o: Obj): set<Obj> {
    Parts(o) + {Atom("null")} + set id, p | id in objects && p in Parts(objects[id]) :: p
  }

  lemma {:induction false} PartsOfParts(o: Obj, p: Obj, q: Obj)
    requires p in Parts(o) && q in Parts(p)
    ensures q in Parts(o)
  {
    if p != o {
      match o
      case Dictionary(entries) =>
        var k :| k in entries && p in Parts(entries[k]);
        PartsOfParts(entries[k], p, q);
      case Array(items) =>
        var item :| item in items && p in Parts(item);
        PartsOfParts(item, p, q);
      case Indirect(_) =>
      case Atom(_) =>
    }
  }

  lemma IsOwnPart(o: Obj)
    ensures o in Parts(o)
  {
  }

  /** What an object refers to directly is one of its parts, or what such a part stands for. */
  lemma ChildIsNearby(objects: map<nat, Obj>, o: Obj, c: Obj)
    requires c in Children(objects, o)
    ensures exists p :: p in Parts(o) && (c == p || c == Resolve(objects, p))
  {
    match o
    case Dictionary(entries) =>
      var k :| k in entries && c == Resolve(objects, entries[k]);
      IsOwnPart(entries[k]);
    case Array(items) =>
      IsOwnPart(c);
      assert c in items && c in Parts(o);
    case Indirect(_) =>
      IsOwnPart(o);
  }

  lemma ChildIsNode(objects: map<nat, Obj>, o: Obj, x: Obj, c: Obj)
    requires x in Nodes(objects, o) && c in Children(objects, x)
    ensures c in Nodes(objects, o)
  {
    ChildIsNearby(objects, x, c);
    var p :| p in Parts(x) && (c == p || c == Resolve(objects, p));
    if x in Parts(o) {
      PartsOfParts(o, x, p);
    } else if x != Atom("null") {
      var id :| id in objects && x in Parts(objects[id]);
      PartsOfParts(objects[id], x, p);
    }
    assert p in Nodes(objects, o);
    if c != p {
      match p
      case Indirect(id) =>
        if id in objects {
          IsOwnPart(objects[id]);
        }
      case _ =>
    }
  }

  lemma {:induction false} PathStaysInNodes(objects: map<nat, Obj>, o: Obj, path: seq<Obj>, n: nat)
    requires IsPath(objects, path, o) && n < |path|
    ensures path[n] in Nodes(objects, o)
  {
    if n == 0 {
      IsOwnPart(o);
    } else {
      PathStaysInNodes(objects, o, path, n - 1);
      ChildIsNode(objects, o, path[n - 1], path[n]);
    }
  }

  lemma PathSlice(objects: map<nat, Obj>, path: seq<Obj>, from: Obj, i: nat, j: nat)
    requires IsPath(objects, path, from) && i <= j < |path|
    ensures Reachable(objects, path[i], path[j])
  {
    var slice := path[i..j + 1];
    forall a, b | 0 <= a < b < |slice| && b == a + 1
      ensures slice[b] in Children(objects, slice[a])
    {
      assert path[i + b] in Children(objects, path[i + a]);
    }
    assert IsPath(objects, slice, path[i]) && slice[|slice| - 1] == path[j];
  }

  /** On an acyclic graph no path meets an object twice. */
  lemma PathsDoNotRepeat(objects: map<nat, Obj>, o: Obj, path: seq<Obj>, i: nat, j: nat)
    requires Acyclic(objects, o) && IsPath(objects, path, o) && i < j < |path|
    ensures path[i] != path[j]
  {
    PathSlice(objects, path, o, 0, j - 1);
    PathSlice(objects, path, o, i, j - 1);
    assert path[j] in Children(objects, path[j - 1]);
  }

  lemma {:induction false} DistinctFit<T>(s: seq<T>, all: set<T>)
    requires forall i :: 0 <= i < |s| ==> s[i] in all
    requires forall i, j :: 0 <= i < j < |s| ==> s[i] != s[j]
    ensures |s| <= |all|
  {
    if s != [] {
      var last := s[|s| - 1];
      DistinctFit(s[..|s| - 1], all - {last});
    }
  }

  /** On an acyclic graph the walk returns if Python may recurse as often as there are objects to meet. */
  lemma AcyclicFits(objects: map<nat, Obj>, o: Obj, limit: nat)
    requires Acyclic(objects, o) && |Nodes(objects, o)| <= limit
    ensures Returns(objects, o, limit)
  {
    ReturnsIff(objects, o, limit);
    forall path | IsPath(objects, path, o)
      ensures |path| <= limit
    {
      forall n | 0 <= n < |path|
        ensures path[n] in Nodes(objects, o)
      {
        PathStaysInNodes(objects, o, path, n);
      }
      forall i, j | 0 <= i < j < |path|
        ensures path[i] != path[j]
      {
        PathsDoNotRepeat(objects, o, path, i, j);
      }
      DistinctFit(path, Nodes(objects, o));
    }
  }

  /** Some child of the object leads back to it. */
  ghost predicate OnCycle(objects: map<nat, Obj>, x: Obj) {
    exists c :: c in Children(objects, x) && Reachable(objects, c, x)
  }

  lemma ReachableSnoc(objects: map<nat, Obj>, from: Obj, x: Obj, c: Obj)
    requires Reachable(objects, from, x) && c in Children(objects, x)
    ensures Reachable(objects, from, c)
  {
    var path :| IsPath(objects, path, from) && path[|path| - 1] == x;
    assert IsPath(objects, path + [c], from) && (path + [c])[|path + [c]| - 1] == c;
  }

  /** The cycle goes on from each object on it. */
  lemma CycleGoesOn(objects: map<nat, Obj>, x: Obj, c: Obj)
    requires c in Children(objects, x) && Reachable(objects, c, x)
    ensures OnCycle(objects, c)
  {
    if c != x {
      ReachableOnwards(objects, c, x);
      var d :| d in Children(objects, c) && Reachable(objects, d, x);
      ReachableSnoc(objects, d, x, c);
    }
  }

  lemma {:induction false} OnCycleNeverReturns(objects: map<nat, Obj>, x: Obj, limit: nat)
    requires OnCycle(objects, x)
    ensures !Returns(objects, x, limit)
    decreases limit
  {
    if limit > 0 {
      var c :| c in Children(objects, x) && Reachable(objects, c, x);
      CycleGoesOn(objects, x, c);
      OnCycleNeverReturns(objects, c, limit - 1);
    }
  }

  lemma {:induction false} CycleInReachNeverReturns(objects: map<nat, Obj>, o: Obj, x: Obj, limit: nat)
    requires Reachable(objects, o, x) && OnCycle(objects, x)
    ensures !Returns(objects, o, limit)
    decreases limit
  {
    if o == x {
      OnCycleNeverReturns(objects, x, limit);
    } else if limit > 0 {
      ReachableOnwards(objects, o, x);
      var c :| c in Children(objects, o) && Reachable(objects, c, x);
      CycleInReachNeverReturns(objects, c, x, limit - 1);
    }
  }

  lemma ReturningIsAcyclic(objects: map<nat, Obj>, o: Obj, limit: nat)
    requires Returns(objects, o, limit)
    ensures Acyclic(objects, o)
  {
    if !Acyclic(objects, o) {
      var x, c :| Reachable(objects, o, x) && c in Children(objects, x) && Reachable(objects, c, x);
      CycleInReachNeverReturns(objects, o, x, limit);
    }
  }

  /**
   The walk can return, given enough recursion, exactly when nothing within reach of its start leads back to itself,
   whatever cycles there are elsewhere in the file; and as many nested calls as there are objects to meet are enough.
   */
  lemma ReturnsIffAcyclic(objects: map<nat, Obj>, o: Obj)
    ensures (exists limit: nat :: Returns(objects, o, limit)) <==> Acyclic(objects, o)
    ensures forall limit: nat :: |Nodes(objects, o)| <= limit ==> (Returns(objects, o, limit) <==> Acyclic(objects, o))
  {
    if Acyclic(objects, o) {
      forall limit: nat | |Nodes(objects, o)| <= limit
        ensures Returns(objects, o, limit)
      {
        AcyclicFits(objects, o, limit);
      }
      assert Returns(objects, o, |Nodes(objects, o)|);
    } else {
      forall limit: nat
        ensures !Returns(objects, o, limit)
      {
        if Returns(objects, o, limit) {
          ReturningIsAcyclic(objects, o, limit);
        }
      }
    }
  }

  /** The page has resources, and nothing within reach of them leads back to itself. */
  ghost predicate PageAcyclic(document: Document, page: Page) {
    Root(document, page).Some? && Acyclic(document.objects, Root(document, page).value)
  }

  ghost predicate AllAcyclic(document: Document) {
    forall i :: 0 <= i < |document.pages| ==> PageAcyclic(document, document.pages[i])
  }

  /** Python may recurse as often as there are objects to meet from any page. */
  ghost predicate RecursionSuffices(document: Document, limit: nat) {
    forall i :: 0 <= i < |document.pages| && Root(document, document.pages[i]).Some? ==>
                  |Nodes(document.objects, Root(document, document.pages[i]).value)| <= limit
  }

  lemma PageReturnsIff(document: Document, page: Page, limit: nat)
    requires Root(document, page).Some? ==> |Nodes(document.objects, Root(document, page).value)| <= limit
    ensures PageReturns(document, page, limit) <==> PageAcyclic(document, page)
  {
    if PageReturns(document, page, limit) {
      ReturningIsAcyclic(document.objects, Root(document, page).value, limit);
    } else if PageAcyclic(document, page) {
      AcyclicFits(document.objects, Root(document, page).value, limit);
    }
  }

  /** With that, there is an answer for a document exactly when the resources of all its pages are acyclic. */
  lemma AnswersIffAcyclic(document: Document, limit: nat)
    requires RecursionSuffices(document, limit)
    ensures Unembedded(document, limit).Some? <==> AllAcyclic(document)
  {
    forall i | 0 <= i < |document.pages|
      ensures PageReturns(document, document.pages[i], limit) <==> PageAcyclic(document, document.pages[i])
    {
      PageReturnsIff(document, document.pages[i], limit);
    }
  }

  /** On a graph with a cycle within reach the walk never returns, however deep Python may recurse. */
  lemma {:induction false} CycleNeverReturns(objects: map<nat, Obj>, o: Obj, limit: nat, cycle: set<Obj>, next: Obj -> Obj)
    requires o in cycle
    requires forall x :: x in cycle ==> next(x) in cycle && next(x) in Children(objects, x)
    ensures !Returns(objects, o, limit)
    decreases limit
  {
    if limit > 0 {
      CycleNeverReturns(objects, next(o), limit - 1, cycle, next);
    }
  }
}
