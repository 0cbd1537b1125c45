/** Paths, templates and the router itself (pkg/router/router.go): one trie per method, and the lookup of
    `ServeHTTP` up to the handler and its parameters. */
module Router {
  import opened RouteSpec
  import opened RouterTree
  import opened Wrappers

  const ANY := "ANY"

  // ---------- strings ----------

  function TrimLeft(s: string): (r: string)
    ensures r == "" || r[0] != '/'
  {
    if s != "" && s[0] == '/' then TrimLeft(s[1..]) else s
  }

  function TrimRight(s: string): (r: string)
    ensures r == "" || r[|r| - 1] != '/'
  {
    if s != "" && s[|s| - 1] == '/' then TrimRight(s[..|s| - 1]) else s
  }

  function Trim(s: string): string {
    TrimRight(TrimLeft(s))
  }

  /** Trimming takes slashes from both ends, and all of them. */
  lemma TrimExactly(s: string) returns (left: string, right: string)
    ensures s == left + Trim(s) + right && (forall c :: c in left + right ==> c == '/')
    ensures Trim(s) == "" || (Trim(s)[0] != '/' && Trim(s)[|Trim(s)| - 1] != '/')
    ensures TrimRight(s) == "" || TrimRight(s)[|TrimRight(s)| - 1] != '/'
  {
    left := TrimmedLeft(s);
    right := TrimmedRight(TrimLeft(s));
    var t := TrimLeft(s);
    assert t == Trim(s) + right && s == left + t;
    assert Trim(s) != "" ==> Trim(s)[0] == t[0];
  }

  lemma {:induction false} TrimmedLeft(s: string) returns (left: string)
    ensures s == left + TrimLeft(s) && forall c :: c in left ==> c == '/'
  {
    if s != "" && s[0] == '/' {
      var rest := TrimmedLeft(s[1..]);
      left := "/" + rest;
    } else {
      left := "";
    }
  }

  lemma {:induction false} TrimmedRight(s: string) returns (right: string)
    ensures s == TrimRight(s) + right && forall c :: c in right ==> c == '/'
  {
    if s != "" && s[|s| - 1] == '/' {
      var rest := TrimmedRight(s[..|s| - 1]);
      right := rest + "/";
      assert s == s[..|s| - 1] + "/";
    } else {
      right := "";
    }
  }

  /** `strings.Split(s, "/")`. */
  function Split(s: string): (parts: seq<string>)
    ensures parts != [] && forall p :: p in parts ==> '/' !in p
  {
    if s == "" then [""]
    else
      var rest := Split(s[1..]);
      if s[0] == '/' then [""] + rest else [[s[0]] + rest[0]] + rest[1..]
  }

  lemma {:induction false} JoinSplit(s: string)
    ensures Join(Split(s)) == s
  {
    if s == "" {
    } else {
      JoinSplit(s[1..]);
      var rest := Split(s[1..]);
      if s[0] == '/' {
        assert ([""] + rest)[1..] == rest;
      } else {
        var parts := [[s[0]] + rest[0]] + rest[1..];
        assert parts[1..] == rest[1..];
      }
    }
  }

  lemma {:induction false} SplitOne(s: string)
    requires '/' !in s
    ensures Split(s) == [s]
  {
    if s == "" {
    } else {
      assert s == [s[0]] + s[1..] && s[0] in s;
      SplitOne(s[1..]);
    }
  }

  lemma {:induction false} SplitCons(a: string, s: string)
    requires '/' !in a
    ensures Split(a + "/" + s) == [a] + Split(s)
  {
    if a == "" {
      assert (a + "/" + s)[1..] == s;
    } else {
      SplitCons(a[1..], s);
      assert (a + "/" + s)[1..] == a[1..] + "/" + s && a[0] in a && a == [a[0]] + a[1..];
      assert ([a[1..]] + Split(s))[1..] == Split(s);
    }
  }

  lemma {:induction false} SplitJoin(parts: seq<string>)
    requires parts != [] && forall p :: p in parts ==> '/' !in p
    ensures Split(Join(parts)) == parts
  {
    if |parts| == 1 {
      SplitOne(parts[0]);
    } else {
      SplitJoin(parts[1..]);
      SplitCons(parts[0], Join(parts[1..]));
    }
  }

  // ---------- templates ----------

  function SegmentOf(p: string): Segment {
    if p != "" && p[0] == ':' then Segment(p, true, false, p[1..])
    else if p != "" && p[0] == '*' then Segment(p, false, true, p[1..])
    else Segment(p, false, false, "")
  }

  function SegmentsOf(parts: seq<string>): (segments: seq<Segment>)
    ensures |segments| == |parts|
    ensures forall i :: 0 <= i < |parts| ==> segments[i] == SegmentOf(parts[i])
  {
    if parts == [] then [] else [SegmentOf(parts[0])] + SegmentsOf(parts[1..])
  }

  method CompileTemplate(path: string) returns (segments: seq<Segment>)
    ensures segments == if path == "/" then [] else SegmentsOf(Split(Trim(path)))
  {
    if path == "/" {
      return [];
    }
    var parts := Split(Trim(path));
    segments := [];
    for i := 0 to |parts|
      invariant |segments| == i
      invariant forall j :: 0 <= j < i ==> segments[j] == SegmentOf(parts[j])
    {
      segments := segments + [SegmentOf(parts[i])];
    }
    assert segments == SegmentsOf(parts);
  }

  /** The whole path of a route: the group's prefix, the path without trailing slashes, never empty. */
  function FullPath(prefix: string, path: string): string {
    var p := prefix + TrimRight(path);
    if p == "" then "/" else p
  }

  function TemplateOf(fullPath: string): seq<Segment> {
    if fullPath == "/" then [] else SegmentsOf(Split(Trim(fullPath)))
  }

  /** Exactly parameters and wildcards have the key of a variable. */
  predicate Marked(segments: seq<Segment>) {
    forall i :: 0 <= i < |segments| ==> (segments[i].isParam || segments[i].isWild <==> IsVariable(segments[i].Key()))
  }

  lemma KeysAreKeys(fullPath: string)
    ensures forall key :: key in Keys(TemplateOf(fullPath)) ==> key == "" || IsKey(key)
    ensures Marked(TemplateOf(fullPath))
  {
    if fullPath != "/" {
      var parts, segments := Split(Trim(fullPath)), TemplateOf(fullPath);
      forall i | 0 <= i < |segments|
        ensures Keys(segments)[i] == "" || IsKey(Keys(segments)[i])
      {
        assert segments[i] == SegmentOf(parts[i]);
      }
    }
  }

  /** What the segments of a path stand for: ":id" is a parameter named "id", "*rest" a wildcard named "rest", and
      anything else stands for itself. */
  lemma TemplateTells(fullPath: string, j: nat)
    requires fullPath != "/" && j < |Split(Trim(fullPath))|
    ensures |TemplateOf(fullPath)| == |Split(Trim(fullPath))|
    ensures var part, s, key := Split(Trim(fullPath))[j], TemplateOf(fullPath)[j], Keys(TemplateOf(fullPath))[j];
      && (part != "" && part[0] == ':' ==> key == ":" && s.isParam && !s.isWild && s.paramName == part[1..])
      && (part != "" && part[0] == '*' ==> key == "*" && s.isWild && !s.isParam && s.paramName == part[1..])
      && (part == "" || (part[0] != ':' && part[0] != '*') ==> key == part && !s.isParam && !s.isWild)
  {
  }

  /** The names of a template are those of its variables, in order. */
  lemma {:induction false} NameAt(segments: seq<Segment>, j: nat)
    requires j < |segments| && (segments[j].isParam || segments[j].isWild)
    requires Marked(segments)
    ensures |Names(segments)| == Variables(Keys(segments)) && Variables(Keys(segments)[..j]) < |Names(segments)|
    ensures Names(segments)[Variables(Keys(segments)[..j])] == segments[j].paramName
    decreases |segments|
  {
    NamesCount(segments);
    var init, last := segments[..|segments| - 1], segments[|segments| - 1];
    NamesCount(init);
    assert Keys(segments) == Keys(init) + [last.Key()];
    VariablesConcat(Keys(init), [last.Key()]);
    assert [last.Key()][1..] == [];
    if j == |segments| - 1 {
      assert Keys(segments)[..j] == Keys(init);
    } else {
      assert Keys(segments)[..j] == Keys(init)[..j];
      NameAt(init, j);
    }
  }

  lemma {:induction false} NamesCount(segments: seq<Segment>)
    requires Marked(segments)
    ensures |Names(segments)| == Variables(Keys(segments))
    decreases |segments|
  {
    if segments == [] {
      assert Keys(segments) == [];
    } else {
      var init, last := segments[..|segments| - 1], segments[|segments| - 1];
      NamesCount(init);
      assert Keys(segments) == Keys(init) + [last.Key()];
      VariablesConcat(Keys(init), [last.Key()]);
      assert [last.Key()][1..] == [];
    }
  }

  lemma {:induction false} VariablesConcat(a: Path, b: Path)
    ensures Variables(a + b) == Variables(a) + Variables(b)
  {
    if a == [] {
      assert a + b == b;
    } else {
      assert (a + b)[1..] == a[1..] + b;
      VariablesConcat(a[1..], b);
    }
  }

  // ---------- lookup over plain tables ----------

  type Table = map<Path, Route>

  /** Later names win, and surplus names get no value. */
  function Bind(keys: seq<string>, values: seq<string>): map<string, string> {
    if keys == [] then map[]
    else
      var bound := Bind(keys[..|keys| - 1], values);
      if |keys| <= |values| then bound[keys[|keys| - 1] := values[|keys| - 1]] else bound
  }

  datatype Answer = NotFound | Found(handler: Handler, params: map<string, string>)

  function Look(table: Table, parts: seq<string>): Answer {
    var m := Greedy(table.Keys, [], parts);
    if m.Match? && m.template in table then
      Found(table[m.template].handler, Bind(table[m.template].paramKeys, m.values))
    else NotFound
  }

  function LookRoot(table: Table): Answer {
    if [] in table then Found(table[[]].handler, map[]) else NotFound
  }

  /** The answer to a request, over the tables of routes registered for each method. */
  function Serve(tables: map<string, Table>, verb: string, path: string): Answer {
    if verb !in tables && ANY !in tables then NotFound
    else
      var table := if verb in tables then tables[verb] else tables[ANY];
      var trimmed := if path == "/" then path else Trim(path);
      if trimmed == "/" || trimmed == "" then LookRoot(table)
      else
        var answer := Look(table, Split(trimmed));
        if answer.NotFound? && verb != ANY && ANY in tables then Look(tables[ANY], Split(trimmed)) else answer
  }

  /** A name is bound exactly if it stands at a place that has a value, and then to the value at its last such place. */
  lemma {:induction false} BindExactly(keys: seq<string>, values: seq<string>, name: string)
    ensures name in Bind(keys, values) <==> exists i :: 0 <= i < |keys| && i < |values| && keys[i] == name
    ensures forall i :: 0 <= i < |keys| && i < |values| && keys[i] == name ==>
      (forall j :: i < j < |keys| && j < |values| ==> keys[j] != name) ==> Bind(keys, values)[name] == values[i]
  {
    if keys == [] {
    } else {
      var init := keys[..|keys| - 1];
      BindExactly(init, values, name);
      assert forall i :: 0 <= i < |init| ==> init[i] == keys[i];
    }
  }

  /** With distinct parameter names every variable's value is there under its name. */
  lemma {:induction false} BindFinds(keys: seq<string>, values: seq<string>, i: nat)
    requires i < |keys| <= |values| && forall a, b :: 0 <= a < b < |keys| ==> keys[a] != keys[b]
    ensures keys[i] in Bind(keys, values) && Bind(keys, values)[keys[i]] == values[i]
  {
    if i == |keys| - 1 {
    } else {
      BindFinds(keys[..|keys| - 1], values, i);
    }
  }

  ghost function FootprintOf(trees: map<string, Tree>): set<object>
    reads trees.Values
  {
    (set m | m in trees :: trees[m]) + (set m, p | m in trees && p in trees[m].at :: trees[m].at[p])
  }

  ghost function TablesOf(trees: map<string, Tree>): map<string, Table>
    reads trees.Values
  {
    map m | m in trees :: trees[m].routes
  }

  lemma GraftAdds(trees: map<string, Tree>, verb: string, t: Tree)
    ensures FootprintOf(trees[verb := t]) <= FootprintOf(trees) + {t} + t.Nodes()
    ensures TablesOf(trees[verb := t]) == TablesOf(trees)[verb := t.routes]
  {
  }

  /** The answer: of the method's own routes if one is found, else of those for any method; the root has no such
      fallback once the method has a table. */
  lemma ServeTells(tables: map<string, Table>, verb: string, path: string)
    ensures path != "/" && Trim(path) != "" ==>
      var answer, parts := Serve(tables, verb, path), Split(Trim(path));
      && (verb in tables ==>
            forall t :: Finds(tables[verb].Keys, parts, t) ==>
              answer == Found(tables[verb][t].handler,
                              Bind(tables[verb][t].paramKeys, Greedy(tables[verb].Keys, [], parts).values)))
      && (ANY in tables
          && (verb in tables ==> forall u :: u in tables[verb] ==> !Finds(tables[verb].Keys, parts, u)) ==>
            forall t :: Finds(tables[ANY].Keys, parts, t) ==>
              answer == Found(tables[ANY][t].handler,
                              Bind(tables[ANY][t].paramKeys, Greedy(tables[ANY].Keys, [], parts).values)))
      && (answer == NotFound <==>
            && (verb in tables ==> forall t :: t in tables[verb] ==> !Finds(tables[verb].Keys, parts, t))
            && (ANY in tables ==> forall t :: t in tables[ANY] ==> !Finds(tables[ANY].Keys, parts, t)))
    ensures path == "/" || Trim(path) == "" ==>
      var answer := Serve(tables, verb, path);
      && (verb in tables ==> answer == if [] in tables[verb] then Found(tables[verb][[]].handler, map[]) else NotFound)
      && (verb !in tables && ANY in tables ==>
            answer == if [] in tables[ANY] then Found(tables[ANY][[]].handler, map[]) else NotFound)
      && (verb !in tables && ANY !in tables ==> answer == NotFound)
  {
    hide Greedy, Bind, Split;
    var _, _ := TrimExactly(path);
  }

  /** Over registered templates: if a template with distinct names is found for a plain request, every parameter is
      answered with the segment at its place, and the wildcard with all from its place on. */
  lemma ParamsTell(table: Table, parts: seq<string>, segments: seq<Segment>, j: nat)
    requires var t := Keys(segments); Finds(table.Keys, parts, t) && table[t].paramKeys == Names(segments)
    requires PlainParts(parts) && j < |segments| && (segments[j].isParam || segments[j].isWild)
    requires Marked(segments)
    requires forall a, b :: 0 <= a < b < |Names(segments)| ==> Names(segments)[a] != Names(segments)[b]
    ensures var answer := Look(table, parts);
      && answer.Found? && answer.handler == table[Keys(segments)].handler && |segments| <= |parts|
      && segments[j].paramName in answer.params
      && answer.params[segments[j].paramName] == if segments[j].isParam then parts[j] else Join(parts[j..])
  {
    hide Greedy, Names, Join;
    var t := Keys(segments);
    assert t[j] == segments[j].Key();
    ValuesGiveRequestBack(table.Keys, parts);
    ValuesAt(table.Keys, parts, t, j);
    NameAt(segments, j);
    BindFinds(Names(segments), Greedy(table.Keys, [], parts).values, Variables(t[..j]));
  }

  class Router {
    const prefix: string
    var trees: map<string, Tree>
    var frozen: bool

    constructor (prefix: string)
      ensures Valid() && Tables() == map[] && !frozen && this.prefix == prefix && fresh(Footprint())
    {
      this.prefix := prefix;
      trees, frozen := map[], false;
    }

    ghost function Footprint(): set<object>
      reads `trees, trees.Values
    {
      FootprintOf(trees)
    }

    ghost predicate Valid()
      reads `trees, trees.Values, Footprint()
    {
      && (forall m :: m in trees ==> trees[m].Valid() && trees[m].Tight())
      && (forall m, m' :: m in trees && m' in trees && m != m' ==>
            trees[m] != trees[m'] && trees[m].Nodes() !! trees[m'].Nodes())
    }

    /** What has been registered, as plain tables. */
    ghost function Tables(): map<string, Table>
      reads `trees, trees.Values
    {
      TablesOf(trees)
    }

    method Freeze()
      requires Valid()
      modifies `frozen
      ensures Valid() && frozen && Tables() == old(Tables())
    {
      hide Tree.Valid, Tree.Tight;
      frozen := true;
    }

    /** The lines of the method's tree, made if it is not there yet. */
    ghost function LinesFor(verb: string): map<Path, Line>
      reads `trees, trees.Values, Footprint()
    {
      if verb in trees then trees[verb].Lines() else map[[] := NOBODY]
    }

    /** While all keys start as UTF-8 does, registration is stuck exactly if the templates registered leave no place. */
    lemma StuckMeansCrowded(verb: string, keys: Path)
      requires Valid() && IsUtf8(keys) && forall t :: t in TableFor(Tables(), verb) ==> IsUtf8(t)
      ensures Stuck(LinesFor(verb), keys) <==> Crowds(TableFor(Tables(), verb).Keys, keys)
    {
      hide Tree.Valid, Tree.Tight, Stuck, Crowds;
      if verb in trees {
        trees[verb].StuckExactly(keys);
      } else {
        assert TableFor(Tables(), verb).Keys == {};
        StuckAtFirst(keys);
      }
    }

    method AddRoute(verb: string, path: string, handler: Handler) returns (r: AddResult)
      requires Valid()
      modifies this, Footprint()
      ensures frozen == old(frozen) && (r != PanicIndices ==> Valid())
      ensures r == PanicFrozen <==> old(frozen)
      ensures r == PanicDuplicate <==>
        !old(frozen) && Keys(TemplateOf(FullPath(prefix, path))) in TableFor(old(Tables()), verb)
      ensures r == PanicIndices <==>
        !old(frozen) && Stuck(old(LinesFor(verb)), Keys(TemplateOf(FullPath(prefix, path))))
      ensures r == PanicFrozen || r == PanicDuplicate ==> Tables() == old(Tables())
      ensures r == PanicIndices ==> Tables() == old(Tables())[verb := TableFor(old(Tables()), verb)]
      ensures r == Added ==> var full := FullPath(prefix, path);
        Tables() == Register(old(Tables()), Registration(verb, TemplateOf(full), full, handler))
    {
      hide TrimRight, Trim, Split, Keys, Names, SegmentsOf, Tree.Valid, Tree.Tight, Valid, Stuck, TablesOf, LinesFor;
      if frozen {
        return PanicFrozen;
      }
      var fullPath := prefix + TrimRight(path);
      if fullPath == "" {
        fullPath := "/";
      }
      KeysAreKeys(fullPath);
      var segments := CompileTemplate(fullPath);
      r := AddCompiled(verb, segments, fullPath, handler);
    }

    method AddCompiled(verb: string, segments: seq<Segment>, fullPath: string, handler: Handler) returns (r: AddResult)
      requires Valid() && forall key :: key in Keys(segments) ==> key == "" || IsKey(key)
      modifies `trees, Footprint()
      ensures r != PanicFrozen && (r != PanicIndices ==> Valid())
      ensures r == PanicDuplicate <==> Keys(segments) in TableFor(old(Tables()), verb)
      ensures r == PanicIndices <==> Stuck(old(LinesFor(verb)), Keys(segments))
      ensures r == PanicDuplicate ==> Tables() == old(Tables())
      ensures r == PanicIndices ==> Tables() == old(Tables())[verb := TableFor(old(Tables()), verb)]
      ensures r == Added ==> Tables() == Register(old(Tables()), Registration(verb, segments, fullPath, handler))
    {
      hide Valid, Footprint, Tables, Keys, Names, IsKey, Stuck, LinesFor;
      EnsureTree(verb);
      assert verb in old(Tables()) ==> Tables() == old(Tables());
      r := AddTo(verb, segments, fullPath, handler);
    }

    /** The method's tree, made if it is not there yet. */
    method EnsureTree(verb: string)
      requires Valid()
      modifies `trees
      ensures Valid() && verb in trees && fresh(Footprint() - old(Footprint()))
      ensures Tables() == old(Tables())[verb := TableFor(old(Tables()), verb)]
      ensures LinesFor(verb) == old(LinesFor(verb))
    {
      hide Valid, Footprint, Tree.Lines, TablesOf;
      VerbHasTable(verb);
      if verb !in trees {
        MakeTree(verb);
      } else {
        assert Tables()[verb := Tables()[verb]] == Tables();
      }
    }

    lemma VerbHasTable(verb: string)
      ensures verb in Tables() <==> verb in trees
    {
    }

    method MakeTree(verb: string)
      requires Valid() && verb !in trees
      modifies `trees
      ensures Valid() && verb in trees && fresh(Footprint() - old(Footprint()))
      ensures Tables() == old(Tables())[verb := map[]] && LinesFor(verb) == map[[] := NOBODY]
    {
      hide Tree.Valid, Tree.Tight, Tree.Prioritized, Tree.Lines, TablesOf;
      var t := new Tree();
      forall m | m in trees
        ensures trees[m].Nodes() !! t.Nodes() && trees[m] != t
      {
        assert forall n :: n in trees[m].Nodes() ==> n in old(Footprint());
      }
      Graft(verb, t);
    }

    method Graft(verb: string, t: Tree)
      requires Valid() && verb !in trees && t.Valid() && t.Tight()
      requires forall m :: m in trees ==> trees[m] != t && trees[m].Nodes() !! t.Nodes()
      modifies `trees
      ensures Valid() && verb in trees && Tables() == old(Tables())[verb := t.routes] && LinesFor(verb) == t.Lines()
      ensures Footprint() <= old(Footprint()) + {t} + t.Nodes()
    {
      hide Tree.Valid, Tree.Tight, Tree.Prioritized, FootprintOf, TablesOf;
      GraftAdds(trees, verb, t);
      trees := trees[verb := t];
      assert forall m :: m in trees && m != verb ==> m in old(trees) && trees[m] == old(trees)[m];
    }

    /** Adds to one tree and leaves the others alone. */
    method Plant(tree: Tree, ghost verb: string, segments: seq<Segment>, fullPath: string, handler: Handler)
      returns (r: AddResult)
      requires Valid() && verb in trees && trees[verb] == tree
      requires forall key :: key in Keys(segments) ==> key == "" || IsKey(key)
      modifies tree`at, tree`routes, tree.Nodes()
      ensures r != PanicFrozen && (r != PanicIndices ==> Valid())
      ensures r == PanicDuplicate <==> Keys(segments) in old(tree.routes)
      ensures r == PanicIndices <==> Stuck(old(tree.Lines()), Keys(segments))
      ensures r == Added ==>
        tree.routes == old(tree.routes)[Keys(segments) := Route(handler, Names(segments), fullPath)]
      ensures r != Added ==> tree.routes == old(tree.routes)
    {
      hide Tree.Valid, Tree.Tight, Tree.Prioritized, Keys, Names, IsKey, Stuck;
      r := tree.Add(segments, fullPath, handler);
      forall m | m in trees && m != verb
        ensures trees[m].Valid() && trees[m].Tight() && trees[m].Nodes() !! tree.Nodes()
      {
        assert old(trees[m].Nodes()) !! old(tree.Nodes());
      }
    }

    method AddTo(verb: string, segments: seq<Segment>, fullPath: string, handler: Handler) returns (r: AddResult)
      requires Valid() && verb in trees && forall key :: key in Keys(segments) ==> key == "" || IsKey(key)
      modifies Footprint()
      ensures r != PanicFrozen && (r != PanicIndices ==> Valid()) && frozen == old(frozen) && trees == old(trees)
      ensures r == PanicDuplicate <==> Keys(segments) in old(Tables())[verb]
      ensures r == PanicIndices <==> Stuck(old(LinesFor(verb)), Keys(segments))
      ensures Tables() == if r == Added then Register(old(Tables()), Registration(verb, segments, fullPath, handler))
                          else old(Tables())
    {
      hide Tree.Valid, Tree.Tight, Tree.Prioritized, Keys, Names, IsKey, Stuck;
      r := Plant(trees[verb], verb, segments, fullPath, handler);
      assert forall m :: m in trees && m != verb ==> trees[m] != trees[verb] && trees[m].routes == old(trees[m].routes);
    }

    /** `ServeHTTP` up to the choice of handler and parameters. */
    method Lookup(verb: string, path: string) returns (answer: Answer)
      requires Valid()
      ensures answer == Serve(Tables(), verb, path)
      ensures path != "/" && Trim(path) != "" ==>
        var parts := Split(Trim(path));
        var tables := Tables();
        && (verb in tables ==>
              forall t :: Finds(tables[verb].Keys, parts, t) ==>
                answer == Found(tables[verb][t].handler,
                                Bind(tables[verb][t].paramKeys, Greedy(tables[verb].Keys, [], parts).values)))
        && (ANY in tables
            && (verb in tables ==> forall u :: u in tables[verb] ==> !Finds(tables[verb].Keys, parts, u)) ==>
              forall t :: Finds(tables[ANY].Keys, parts, t) ==>
                answer == Found(tables[ANY][t].handler,
                                Bind(tables[ANY][t].paramKeys, Greedy(tables[ANY].Keys, [], parts).values)))
        && (answer == NotFound <==>
              && (verb in tables ==> forall t :: t in tables[verb] ==> !Finds(tables[verb].Keys, parts, t))
              && (ANY in tables ==> forall t :: t in tables[ANY] ==> !Finds(tables[ANY].Keys, parts, t)))
      ensures path == "/" || Trim(path) == "" ==>
        var tables := Tables();
        && (verb in tables ==>
              answer == if [] in tables[verb] then Found(tables[verb][[]].handler, map[]) else NotFound)
        && (verb !in tables && ANY in tables ==>
              answer == if [] in tables[ANY] then Found(tables[ANY][[]].handler, map[]) else NotFound)
        && (verb !in tables && ANY !in tables ==> answer == NotFound)
    {
      hide Named, Tree.NodeAt, Look, Trim, Split, Greedy;
      ServeTells(Tables(), verb, path);
      if verb !in trees && ANY !in trees {
        return NotFound;
      }
      var tree := if verb in trees then trees[verb] else trees[ANY];
      var trimmed := path;
      if trimmed != "/" {
        trimmed := Trim(trimmed);
      }
      if trimmed == "/" || trimmed == "" {
        var h := tree.RootHandler();
        return if h.Some? then Found(h.value, map[]) else NotFound;
      }
      var parts := Split(trimmed);
      answer := Match(tree, parts);
      if answer.NotFound? && verb != ANY && ANY in trees {
        answer := Match(trees[ANY], parts);
      }
    }

    /** `matchRoute` and the assignment of values to parameter names. */
    static method Match(tree: Tree, parts: seq<string>) returns (answer: Answer)
      requires tree.Valid() && tree.Tight()
      ensures answer == Look(tree.routes, parts)
    {
      hide Greedy, Tree.Valid, Tree.Tight;
      var handler, values, keys := tree.MatchRoute(parts);
      if handler.None? {
        return NotFound;
      }
      var params: map<string, string> := map[];
      for i := 0 to |keys|
        invariant params == Bind(keys[..i], values)
      {
        assert keys[..i + 1][..i] == keys[..i];
        if i < |values| {
          params := params[keys[i] := values[i]];
        }
      }
      assert keys[..|keys|] == keys;
      return Found(handler.value, params);
    }
  }

  // ---------- order of registration ----------

  datatype Registration = Registration(verb: string, segments: seq<Segment>, fullPath: string, handler: Handler)

  function Register(tables: map<string, Table>, r: Registration): map<string, Table> {
    tables[r.verb := TableFor(tables, r.verb)[Keys(r.segments) := Route(r.handler, Names(r.segments), r.fullPath)]]
  }

  function RegisterAll(rs: seq<Registration>): map<string, Table> {
    if rs == [] then map[] else Register(RegisterAll(rs[..|rs| - 1]), rs[|rs| - 1])
  }

  /** No two registrations are duplicates of each other, as success of each `AddRoute` implies. */
  predicate NoDuplicates(rs: seq<Registration>) {
    forall i, j :: 0 <= i < j < |rs| ==> !(rs[i].verb == rs[j].verb && Keys(rs[i].segments) == Keys(rs[j].segments))
  }

  /** The tables hold exactly the routes registered, whatever the order. */
  lemma {:induction false} TablesAreTheSet(rs: seq<Registration>, verb: string, t: Path)
    requires NoDuplicates(rs)
    ensures t in TableFor(RegisterAll(rs), verb) <==> exists r :: r in rs && r.verb == verb && Keys(r.segments) == t
    ensures forall r :: r in rs && r.verb == verb && Keys(r.segments) == t ==>
      TableFor(RegisterAll(rs), verb)[t] == Route(r.handler, Names(r.segments), r.fullPath)
    ensures verb in RegisterAll(rs) <==> exists r :: r in rs && r.verb == verb
  {
    hide Keys, Names;
    if rs == [] {
    } else {
      var init, last := rs[..|rs| - 1], rs[|rs| - 1];
      TablesAreTheSet(init, verb, t);
      assert rs == init + [last];
      assert forall r :: r in rs <==> r in init || r == last;
    }
  }

  lemma OrderDoesNotMatter(rs: seq<Registration>, rs': seq<Registration>)
    requires NoDuplicates(rs) && NoDuplicates(rs') && forall r :: r in rs <==> r in rs'
    ensures RegisterAll(rs) == RegisterAll(rs')
  {
    hide RegisterAll, Keys, Names;
    var a, b := RegisterAll(rs), RegisterAll(rs');
    forall verb
      ensures verb in a <==> verb in b
      ensures TableFor(a, verb) == TableFor(b, verb)
    {
      TablesAreTheSet(rs, verb, []);
      TablesAreTheSet(rs', verb, []);
      forall t
        ensures t in TableFor(a, verb) <==> t in TableFor(b, verb)
        ensures t in TableFor(a, verb) ==> TableFor(a, verb)[t] == TableFor(b, verb)[t]
      {
        TablesAreTheSet(rs, verb, t);
        TablesAreTheSet(rs', verb, t);
      }
    }
    assert forall verb :: verb in a ==> a[verb] == TableFor(a, verb) == TableFor(b, verb) == b[verb];
  }

  function TableFor(tables: map<string, Table>, verb: string): Table {
    if verb in tables then tables[verb] else map[]
  }

  // ---------- templates beyond ASCII ----------

  /** The first route of a method panics exactly if a segment is empty. */
  lemma StuckAtFirst(keys: Path)
    ensures Stuck(map[[] := NOBODY], keys) <==> "" in keys
    ensures Crowds({}, keys) <==> "" in keys
  {
    var lines: map<Path, Line> := map[[] := NOBODY];
    forall n | 0 <= n < |keys|
      ensures StuckAt(lines, keys, n) <==> keys[n] == ""
    {
      PlaceOfNobody(keys[n]);
      assert keys[..n] in lines ==> lines[keys[..n]] == NOBODY;
    }
    if "" in keys {
      var n :| 0 <= n < |keys| && keys[n] == "";
      assert StuckAt(lines, keys, n) && Crowded({}, keys[..n], keys[n]);
    }
  }

  /** A segment that stands for itself and starts beyond ASCII. */
  predicate Accented(s: string) {
    '/' !in s && !IsVariable(s) && BeyondAscii(s) && Leads(s[0])
  }

  lemma TrimOne(s: string)
    requires s != "" && '/' !in s
    ensures TrimRight("/" + s) == "/" + s && Trim("/" + s) == s
  {
    assert s[0] in s && s[|s| - 1] in s;
    assert ("/" + s)[1..] == s && TrimLeft("/" + s) == TrimLeft(s) == s && TrimRight(s) == s;
  }

  lemma OneSegment(s: string)
    requires Accented(s)
    ensures Keys(TemplateOf(FullPath("", "/" + s))) == [s]
  {
    hide Split, Trim, TrimRight;
    TrimOne(s);
    assert "" + ("/" + s) == "/" + s;
    SplitOne(s);
  }

  /** Beside one registered segment that starts as UTF-8 does, another one panics if and only if they differ, and both
      lie beyond ASCII, the new one from 0xC3 on. */
  lemma SecondPanicsExactly(s: string, s': string)
    requires s != "" && Leads(s[0]) && s' != "" && Leads(s'[0])
    ensures Crowds({[s]}, [s']) <==> s != s' && BeyondAscii(s) && s'[0] >= '\U{C3}'
  {
    forall k: string
      ensures Extends({[s]}, [] + [k]) <==> k == s
    {
      if k == s {
        assert [k] <= [s];
      }
      if Extends({[s]}, [] + [k]) {
        assert [] + [k] <= [s];
        assert ([] + [k])[0] == [s][0];
      }
    }
    assert [s'][..0] == [];
    if s != s' && BeyondAscii(s) && s'[0] >= '\U{C3}' {
      assert Crowded({[s]}, [s'][..0], [s'][0]);
    }
  }

  const ELAN := "\U{C3}\U{A9}lan"
  const UEBER := "\U{C3}\U{BC}ber"
  const CENT := "\U{C2}\U{A2}"

  /** The keys of a path registered without a prefix. */
  function KeysOfPath(path: string): Path {
    Keys(TemplateOf(FullPath("", path)))
  }

  lemma AccentsAreKeys()
    ensures Accented(ELAN) && Accented(UEBER) && Accented(CENT)
    ensures ELAN[0] == UEBER[0] == '\U{C3}' && CENT[0] < '\U{C3}' && ELAN != UEBER
  {
    assert ELAN[1] != UEBER[1];
  }

  /** After "/élan", registering "/über" panics; after "/¢", registering "/élan" does, though not the other way
      round. */
  lemma AccentsPanic()
    ensures Crowds({KeysOfPath("/" + ELAN)}, KeysOfPath("/" + UEBER))
    ensures Crowds({KeysOfPath("/" + CENT)}, KeysOfPath("/" + ELAN))
    ensures !Crowds({KeysOfPath("/" + ELAN)}, KeysOfPath("/" + CENT))
  {
    hide Crowds, Keys, TemplateOf, FullPath, IsVariable, Leads, ELAN, UEBER, CENT;
    AccentsAreKeys();
    OneSegment(ELAN);
    OneSegment(UEBER);
    OneSegment(CENT);
    SecondPanicsExactly(ELAN, UEBER);
    SecondPanicsExactly(CENT, ELAN);
    SecondPanicsExactly(ELAN, CENT);
  }
}
