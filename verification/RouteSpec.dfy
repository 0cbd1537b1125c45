/** What pkg/router/router.go should answer, computed over the plain set of registered templates.

    A template is the path of its trie keys: a literal segment stands for itself, ":" for a parameter and "*"
    for a wildcard. Matching is greedy: literal, then parameter, then wildcard, without backtracking.
    Every char of a string stands for one byte. */
module RouteSpec {
  type Path = seq<string>

  datatype Match = NoMatch | Match(template: Path, values: seq<string>)

  /** Keys that can label a trie node. */
  predicate IsKey(s: string) {
    s != "" && (s[0] == ':' ==> s == ":") && (s[0] == '*' ==> s == "*")
  }

  predicate IsVariable(s: string) {
    s == ":" || s == "*"
  }

  predicate IsTemplate(t: Path) {
    forall i :: 0 <= i < |t| ==> IsKey(t[i])
  }

  /** Some registered template starts with `p`. */
  predicate Extends(templates: set<Path>, p: Path) {
    exists t :: t in templates && p <= t
  }

  function Join(parts: seq<string>): string {
    if parts == [] then ""
    else if |parts| == 1 then parts[0]
    else parts[0] + "/" + Join(parts[1..])
  }

  function Greedy(templates: set<Path>, p: Path, parts: seq<string>): Match
    decreases |parts|
  {
    if parts == [] then Match(p, [])
    else if Extends(templates, p + [parts[0]]) then Greedy(templates, p + [parts[0]], parts[1..])
    else if Extends(templates, p + [":"]) then WithValue(parts[0], Greedy(templates, p + [":"], parts[1..]))
    else if Extends(templates, p + ["*"]) then Match(p + ["*"], [Join(parts)])
    else NoMatch
  }

  function WithValue(v: string, m: Match): Match {
    if m.NoMatch? then m else Match(m.template, [v] + m.values)
  }

  /** One step of the greedy walk. */
  lemma GreedyStep(templates: set<Path>, p: Path, parts: seq<string>)
    ensures parts == [] ==> Greedy(templates, p, parts) == Match(p, [])
    ensures parts != [] ==>
      Greedy(templates, p, parts) ==
      if Extends(templates, p + [parts[0]]) then Greedy(templates, p + [parts[0]], parts[1..])
      else if Extends(templates, p + [":"]) then WithValue(parts[0], Greedy(templates, p + [":"], parts[1..]))
      else if Extends(templates, p + ["*"]) then Match(p + ["*"], [Join(parts)])
      else NoMatch
  {
  }

  /** A byte that starts a character in UTF-8. */
  predicate Leads(c: char) {
    c < '\U{80}' || '\U{C2}' <= c <= '\U{F4}'
  }

  predicate IsUtf8(t: Path) {
    forall i :: 0 <= i < |t| && t[i] != "" ==> Leads(t[i][0])
  }

  /** A key that starts with a character beyond ASCII. */
  predicate BeyondAscii(s: string) {
    s != "" && s[0] >= '\U{80}'
  }

  /** There is no inserting the empty key, nor one whose first byte is 0xC3 or more beside another beyond ASCII. */
  ghost predicate Crowded(templates: set<Path>, p: Path, key: string) {
    && !Extends(templates, p + [key])
    && (key == "" || (key[0] >= '\U{C3}' && exists s :: BeyondAscii(s) && Extends(templates, p + [s])))
  }

  /** The registration of `t` comes to such a place. */
  ghost predicate Crowds(templates: set<Path>, t: Path) {
    exists n :: 0 <= n < |t| && Crowded(templates, t[..n], t[n])
  }

  /** The request finds the handler of template `t`. */
  predicate Finds(templates: set<Path>, parts: seq<string>, t: Path) {
    t in templates && Greedy(templates, [], parts).Match? && Greedy(templates, [], parts).template == t
  }

  /** What it means, declaratively, for a template to match: literals are equal, a parameter takes one segment, a
      wildcard in last place takes one or more. */
  predicate Matches(t: Path, parts: seq<string>) {
    if t == [] then parts == []
    else if parts == [] then false
    else if t[0] == "*" then |t| == 1
    else (t[0] == ":" || t[0] == parts[0]) && Matches(t[1..], parts[1..])
  }

  // ---------- substituting the values back ----------

  function Variables(t: Path): nat {
    if t == [] then 0 else (if IsVariable(t[0]) then 1 else 0) + Variables(t[1..])
  }

  /** Template `t` with its variables replaced, in order, by `values`. */
  function Substitute(t: Path, values: seq<string>): seq<string> {
    if t == [] then []
    else if IsVariable(t[0]) && values != [] then [values[0]] + Substitute(t[1..], values[1..])
    else [t[0]] + Substitute(t[1..], values)
  }

  /** The request does not spell a trie key that stands for a variable. */
  predicate PlainParts(parts: seq<string>) {
    forall i :: 0 <= i < |parts| ==> !IsVariable(parts[i])
  }

  /** Which key the walk takes, and whether it records a value. */
  lemma KeyTaken(templates: set<Path>, p: Path, parts: seq<string>) returns (key: string)
    requires parts != [] && Greedy(templates, p, parts).Match?
    ensures key == "*" && parts[0] != "*" ==> Greedy(templates, p, parts) == Match(p + ["*"], [Join(parts)])
    ensures key != "*" || parts[0] == "*" ==>
      && (key == parts[0] || key == ":")
      && var below := Greedy(templates, p + [key], parts[1..]);
         Greedy(templates, p, parts) == if key == parts[0] then below else WithValue(parts[0], below)
  {
    hide Greedy, Extends, Join, WithValue;
    GreedyStep(templates, p, parts);
    key := if Extends(templates, p + [parts[0]]) then parts[0]
           else if Extends(templates, p + [":"]) then ":" else "*";
  }

  /** Below `p` the greedy walk goes to `p + rest`; its values fill the variables of `rest` and
      give the request back, and `rest` matches what it stands for. */
  lemma {:induction false} GreedySound(templates: set<Path>, p: Path, parts: seq<string>) returns (rest: Path)
    requires Greedy(templates, p, parts).Match? && PlainParts(parts)
    ensures var m := Greedy(templates, p, parts);
      && m.template == p + rest
      && |m.values| == Variables(rest)
      && |Substitute(rest, m.values)| == |rest|
      && (parts != [] ==> rest != [])
      && Join(Substitute(rest, m.values)) == Join(parts)
      && Matches(rest, parts)
    decreases |parts|
  {
    hide Extends;
    if parts == [] {
      rest := [];
      assert p + [] == p;
    } else {
      hide Greedy;
      var key := KeyTaken(templates, p, parts);
      assert !IsVariable(parts[0]);
      if key == "*" {
        rest := ["*"];
        assert rest[1..] == [] && [Join(parts)][1..] == [];
      } else {
        assert forall i :: 0 <= i < |parts[1..]| ==> parts[1..][i] == parts[i + 1];
        var below := GreedySound(templates, p + [key], parts[1..]);
        rest := [key] + below;
        assert rest[1..] == below && p + rest == p + [key] + below;
        var m, m' := Greedy(templates, p, parts), Greedy(templates, p + [key], parts[1..]);
        assert key == ":" ==> m.values == [parts[0]] + m'.values && m.values[1..] == m'.values;
        SubstituteStep(key, below, parts[0], m.values, m'.values);
        assert ([parts[0]] + Substitute(below, m'.values))[1..] == Substitute(below, m'.values);
      }
    }
  }

  lemma SubstituteStep(key: string, below: Path, part: string, values: seq<string>, values': seq<string>)
    requires if key == ":" then values == [part] + values' else key == part && !IsVariable(key) && values == values'
    ensures Substitute([key] + below, values) == [part] + Substitute(below, values')
  {
    assert ([key] + below)[1..] == below;
    assert key == ":" ==> values[1..] == values';
  }

  /** Each variable's value, below `p`: a parameter has the segment at its place, a wildcard all from its place on. */
  lemma {:induction false} ValuesBelow(templates: set<Path>, p: Path, parts: seq<string>, j: nat) returns (rest: Path)
    requires Greedy(templates, p, parts).Match? && PlainParts(parts)
    ensures Greedy(templates, p, parts).template == p + rest && |rest| <= |parts|
    ensures j < |rest| && IsVariable(rest[j]) ==>
      && Variables(rest[..j]) < |Greedy(templates, p, parts).values|
      && Greedy(templates, p, parts).values[Variables(rest[..j])]
         == if rest[j] == ":" then parts[j] else Join(parts[j..])
    decreases |parts|
  {
    hide Greedy, Extends, Join;
    GreedyStep(templates, p, parts);
    if parts == [] {
      rest := [];
      assert p + [] == p;
    } else {
      var key := KeyTaken(templates, p, parts);
      assert !IsVariable(parts[0]);
      if key == "*" {
        rest := ["*"];
        assert rest[..0] == [] && parts[0..] == parts;
      } else {
        assert forall i :: 0 <= i < |parts[1..]| ==> parts[1..][i] == parts[i + 1];
        var below := ValuesBelow(templates, p + [key], parts[1..], if j > 0 then j - 1 else 0);
        rest := [key] + below;
        assert p + rest == p + [key] + below;
        if j == 0 {
          assert rest[..0] == [];
        } else if j < |rest| {
          assert rest[..j] == [key] + below[..j - 1] && rest[..j][1..] == below[..j - 1];
          assert parts[1..][j - 1..] == parts[j..];
        }
      }
    }
  }

  lemma ValuesAt(templates: set<Path>, parts: seq<string>, t: Path, j: nat)
    requires Finds(templates, parts, t) && PlainParts(parts) && j < |t| && IsVariable(t[j])
    ensures |t| <= |parts| && Variables(t[..j]) < |Greedy(templates, [], parts).values|
    ensures Greedy(templates, [], parts).values[Variables(t[..j])]
         == if t[j] == ":" then parts[j] else Join(parts[j..])
  {
    hide Greedy, Join;
    var rest := ValuesBelow(templates, [], parts, j);
    assert [] + rest == rest;
  }

  /** Where several templates go on, the one found goes on with the segment itself if any does, else with a parameter if
      any does. */
  lemma {:induction false} PrefersBelow(templates: set<Path>, p: Path, parts: seq<string>, n: nat, k: string)
    returns (rest: Path)
    requires Greedy(templates, p, parts).Match? && PlainParts(parts)
    ensures Greedy(templates, p, parts).template == p + rest && |rest| <= |parts|
    ensures n < |rest| && Extends(templates, p + rest[..n] + [k]) ==>
      && (k == parts[n] ==> rest[n] == k) && (k == ":" ==> rest[n] == ":" || rest[n] == parts[n])
    decreases |parts|
  {
    hide Greedy, Extends, Join;
    GreedyStep(templates, p, parts);
    if parts == [] {
      rest := [];
      assert p + [] == p;
    } else {
      var key := if Extends(templates, p + [parts[0]]) then parts[0]
                 else if Extends(templates, p + [":"]) then ":" else "*";
      if key == "*" {
        assert !IsVariable(parts[0]);
        rest := ["*"];
        assert p + rest[..0] + [k] == p + [k];
      } else {
        assert forall i :: 0 <= i < |parts[1..]| ==> parts[1..][i] == parts[i + 1];
        var below := PrefersBelow(templates, p + [key], parts[1..], if n > 0 then n - 1 else 0, k);
        rest := [key] + below;
        assert p + rest == p + [key] + below;
        if n == 0 {
          assert p + rest[..0] + [k] == p + [k];
        } else if n < |rest| {
          assert p + rest[..n] + [k] == (p + [key]) + below[..n - 1] + [k];
        }
      }
    }
  }

  lemma PrefersLiterals(templates: set<Path>, parts: seq<string>, t: Path, n: nat, k: string)
    requires Finds(templates, parts, t) && PlainParts(parts) && n < |t| && Extends(templates, t[..n] + [k])
    ensures |t| <= |parts| && (k == parts[n] ==> t[n] == k) && (k == ":" ==> t[n] == ":" || t[n] == parts[n])
  {
    hide Greedy, Extends;
    var rest := PrefersBelow(templates, [], parts, n, k);
    assert [] + rest == rest && [] + rest[..n] + [k] == rest[..n] + [k];
  }

  predicate WildLast(t: Path) {
    forall i :: 0 <= i < |t| && t[i] == "*" ==> i == |t| - 1
  }

  /** For every request that does not spell a variable key: if it is matched at all, the values fill the variables
      of the template reached one for one, and substituting them gives back the request path. */
  lemma ValuesGiveRequestBack(templates: set<Path>, parts: seq<string>)
    requires Greedy(templates, [], parts).Match? && PlainParts(parts)
    ensures var m := Greedy(templates, [], parts);
      |m.values| == Variables(m.template) && Join(Substitute(m.template, m.values)) == Join(parts)
  {
    var rest := GreedySound(templates, [], parts);
    assert [] + rest == rest;
  }

  /** Where the request spells a variable's own key, the walk passes it as if it were a literal. */
  function Spelled(t: Path, parts: seq<string>): nat {
    if t == [] || parts == [] then 0
    else (if IsVariable(t[0]) && t[0] == parts[0] then 1 else 0) + Spelled(t[1..], parts[1..])
  }

  lemma {:induction false} SpelledBelow(templates: set<Path>, p: Path, parts: seq<string>) returns (rest: Path)
    requires Greedy(templates, p, parts).Match?
    ensures Greedy(templates, p, parts).template == p + rest
    ensures |Greedy(templates, p, parts).values| + Spelled(rest, parts) == Variables(rest)
    decreases |parts|
  {
    hide Extends, Join;
    if parts == [] {
      rest := [];
    } else {
      hide Greedy;
      var key := KeyTaken(templates, p, parts);
      if key == "*" && parts[0] != "*" {
        rest := ["*"];
        assert rest[1..] == [];
      } else {
        var below := SpelledBelow(templates, p + [key], parts[1..]);
        rest := [key] + below;
        assert rest[1..] == below && p + rest == p + [key] + below;
      }
    }
  }

  /** For every request: the values recorded fall short of the template's variables by exactly the positions at which
      the request spells a variable's key. */
  lemma ValuesMissingExactly(templates: set<Path>, parts: seq<string>)
    requires Greedy(templates, [], parts).Match?
    ensures var m := Greedy(templates, [], parts);
      |m.values| == Variables(m.template) <==> Spelled(m.template, parts) == 0
  {
    var rest := SpelledBelow(templates, [], parts);
    assert [] + rest == rest;
  }

  /** A template that takes every segment of the request, a spelled key by the variable it spells. */
  function Spelling(parts: seq<string>): (t: Path)
    ensures IsTemplate(t)
  {
    if parts == [] then [] else [if IsVariable(parts[0]) then parts[0] else ":"] + Spelling(parts[1..])
  }

  lemma OnlyTemplate(t: Path, p: Path, k: string, rest: Path)
    requires t == p + [k] + rest
    ensures forall s: string :: Extends({t}, p + [s]) <==> s == k
  {
    forall s: string
      ensures Extends({t}, p + [s]) <==> s == k
    {
      if Extends({t}, p + [s]) {
        assert p + [s] <= t;
        assert (p + [s])[|p|] == s && t[|p|] == k;
      }
      if s == k {
        assert p + [s] <= t;
      }
    }
  }

  lemma {:induction false} SpellingIsFound(t: Path, p: Path, parts: seq<string>)
    requires t == p + Spelling(parts)
    ensures Greedy({t}, p, parts).Match? && Greedy({t}, p, parts).template == t
    ensures Spelled(Spelling(parts), parts) == 0 ==> PlainParts(parts)
    decreases |parts|
  {
    hide Extends;
    if parts == [] {
      assert t == p;
    } else {
      var k := Spelling(parts)[0];
      assert Spelling(parts)[1..] == Spelling(parts[1..]);
      assert t == p + [k] + Spelling(parts[1..]);
      OnlyTemplate(t, p, k, Spelling(parts[1..]));
      SpellingIsFound(t, p + [k], parts[1..]);
      assert Spelled(Spelling(parts), parts) == 0 ==> forall i :: 1 <= i < |parts| ==> parts[i] == parts[1..][i - 1];
    }
  }

  /** A request whose values are all recorded, whatever templates are registered. */
  ghost predicate ValuesKept(parts: seq<string>) {
    forall templates: set<Path> ::
      (forall t :: t in templates ==> IsTemplate(t)) && Greedy(templates, [], parts).Match? ==>
        |Greedy(templates, [], parts).values| == Variables(Greedy(templates, [], parts).template)
  }

  /** The values of a request are recorded whatever templates are registered if and only if none of its segments is
      the key of a variable. */
  lemma ValuesKeptExactly(parts: seq<string>)
    ensures ValuesKept(parts) <==> PlainParts(parts)
  {
    if PlainParts(parts) {
      forall templates: set<Path> | Greedy(templates, [], parts).Match?
        ensures |Greedy(templates, [], parts).values| == Variables(Greedy(templates, [], parts).template)
      {
        ValuesGiveRequestBack(templates, parts);
      }
    } else {
      var t := Spelling(parts);
      assert t == [] + t;
      SpellingIsFound(t, [], parts);
      ValuesMissingExactly({t}, parts);
    }
  }

  /** A request that does spell one can be matched without its value being recorded. */
  lemma SpelledVariableLosesItsValue()
    ensures Greedy({[":"]}, [], [":"]) == Match([":"], [])
  {
    assert [":"] <= [":"] && [] + [":"] == [":"];
    assert Extends({[":"]}, [] + [":"]);
    assert [":"][1..] == [];
  }

  /** Whatever is found does match. */
  lemma FoundMatches(templates: set<Path>, parts: seq<string>, t: Path)
    requires Finds(templates, parts, t) && PlainParts(parts)
    ensures Matches(t, parts)
  {
    var rest := GreedySound(templates, [], parts);
    assert [] + rest == rest;
  }

  // ---------- when greedy matching loses nothing ----------

  /** No template prefix has a variable continuation beside another continuation. */
  ghost predicate NoConflict(templates: set<Path>) {
    forall p: Path, s: string, s': string ::
      Extends(templates, p + [s]) && Extends(templates, p + [s']) && IsVariable(s) ==> s == s'
  }

  /** The router finds, for every plain request, exactly the templates that match it (hence at most one). */
  ghost predicate Complete(templates: set<Path>) {
    forall parts: seq<string>, t: Path ::
      PlainParts(parts) ==> (Finds(templates, parts, t) <==> t in templates && Matches(t, parts))
  }

  lemma NoOther(templates: set<Path>, p: Path, k: string, k': string)
    requires NoConflict(templates) && Extends(templates, p + [k])
    ensures k != k' && (IsVariable(k) || IsVariable(k')) ==> !Extends(templates, p + [k'])
  {
  }

  lemma {:induction false} GreedyReaches(templates: set<Path>, p: Path, rest: Path, parts: seq<string>)
    requires NoConflict(templates) && PlainParts(parts) && p + rest in templates && Matches(rest, parts)
    ensures Greedy(templates, p, parts).Match? && Greedy(templates, p, parts).template == p + rest
    decreases |parts|
  {
    if parts == [] {
      assert p + rest == p;
    } else {
      var k := rest[0];
      assert p + [k] <= p + rest;
      assert Extends(templates, p + [k]);
      hide Extends, Join;
      NoOther(templates, p, k, parts[0]);
      NoOther(templates, p, k, ":");
      if k == "*" {
        assert rest == ["*"];
      } else {
        assert p + rest == (p + [k]) + rest[1..];
        GreedyReaches(templates, p + [k], rest[1..], parts[1..]);
      }
    }
  }

  lemma NoConflictIsEnough(templates: set<Path>)
    requires NoConflict(templates) && forall t :: t in templates ==> WildLast(t)
    ensures Complete(templates)
  {
    forall parts: seq<string>, t: Path | PlainParts(parts)
      ensures Finds(templates, parts, t) <==> t in templates && Matches(t, parts)
    {
      if Finds(templates, parts, t) {
        FoundMatches(templates, parts, t);
      }
      if t in templates && Matches(t, parts) {
        assert [] + t == t;
        GreedyReaches(templates, [], t, parts);
      }
    }
  }

  // A request that runs into a given conflict: variables are filled with a string no template has.

  function Fill(t: Path, z: string): seq<string> {
    if t == [] then [] else [if IsVariable(t[0]) then z else t[0]] + Fill(t[1..], z)
  }

  predicate FreshIn(templates: set<Path>, z: string) {
    !IsVariable(z) && forall t :: t in templates ==> z !in t
  }

  lemma {:induction false} LongestSegment(t: Path) returns (n: nat)
    ensures forall s :: s in t ==> |s| <= n
  {
    if t == [] {
      n := 0;
    } else {
      n := LongestSegment(t[1..]);
      n := if |t[0]| > n then |t[0]| else n;
      assert t == [t[0]] + t[1..];
    }
  }

  lemma {:induction false} LongestOf(templates: set<Path>) returns (n: nat)
    ensures forall t, s :: t in templates && s in t ==> |s| <= n
    decreases templates
  {
    if templates == {} {
      n := 0;
    } else {
      var t :| t in templates;
      n := LongestOf(templates - {t});
      var m := LongestSegment(t);
      n := if m > n then m else n;
    }
  }

  lemma FreshExists(templates: set<Path>) returns (z: string)
    ensures FreshIn(templates, z)
  {
    var n := LongestOf(templates);
    z := seq(n + 2, _ => 'z');
  }

  lemma {:induction false} FilledMatches(t: Path, z: string)
    requires WildLast(t) && !IsVariable(z)
    ensures Matches(t, Fill(t, z)) && PlainParts(Fill(t, z))
  {
    if t == [] {
    } else {
      assert forall i :: 0 <= i < |t[1..]| ==> t[1..][i] == t[i + 1];
      FilledMatches(t[1..], z);
      var f := Fill(t, z);
      assert f[1..] == Fill(t[1..], z);
      assert forall i :: 0 < i < |f| ==> f[i] == f[1..][i - 1];
    }
  }

  /** Filled with a fresh string, the part of the request that stands for `q` leads the walk along `q`. */
  lemma FillStep(templates: set<Path>, p: Path, q: Path, tail: seq<string>, z: string)
    requires FreshIn(templates, z) && q != [] && Extends(templates, p + q) && "*" !in q
    ensures var below := Greedy(templates, p + [q[0]], Fill(q[1..], z) + tail);
            Greedy(templates, p, Fill(q, z) + tail) == if IsVariable(q[0]) then WithValue(z, below) else below
    ensures Extends(templates, (p + [q[0]]) + q[1..]) && (p + [q[0]]) + q[1..] == p + q && "*" !in q[1..]
  {
    hide Greedy, Join, Extends, WithValue;
    var parts := Fill(q, z) + tail;
    ExtendsPrefix(templates, p, q);
    NothingFreshExtends(templates, p, z);
    assert p + q == (p + [q[0]]) + q[1..];
    assert q[0] in q && parts[0] == (if IsVariable(q[0]) then z else q[0]) && parts[1..] == Fill(q[1..], z) + tail;
    GreedyStep(templates, p, parts);
  }

  lemma {:induction false} WalkFollowsFill(templates: set<Path>, p: Path, q: Path, tail: seq<string>, z: string)
    requires FreshIn(templates, z) && (q != [] ==> Extends(templates, p + q)) && "*" !in q
    ensures Greedy(templates, p, Fill(q, z) + tail).NoMatch? <==> Greedy(templates, p + q, tail).NoMatch?
    ensures Greedy(templates, p + q, tail).Match? ==>
      Greedy(templates, p, Fill(q, z) + tail).template == Greedy(templates, p + q, tail).template
    decreases |q|
  {
    hide Greedy, Extends, FreshIn;
    if q == [] {
      assert p + q == p && Fill(q, z) + tail == tail;
    } else {
      FillStep(templates, p, q, tail, z);
      WalkFollowsFill(templates, p + [q[0]], q[1..], tail, z);
    }
  }

  lemma ExtendsPrefix(templates: set<Path>, p: Path, q: Path)
    requires q != [] && Extends(templates, p + q)
    ensures Extends(templates, p + [q[0]])
  {
    var t :| t in templates && p + q <= t;
    assert p + [q[0]] <= t;
  }

  lemma NothingFreshExtends(templates: set<Path>, p: Path, z: string)
    requires FreshIn(templates, z)
    ensures !Extends(templates, p + [z])
  {
    forall t | t in templates && |t| > |p|
      ensures !(p + [z] <= t)
    {
      assert t[|p|] != z;
    }
  }

  lemma TemplateBelow(templates: set<Path>, p: Path, parts: seq<string>)
    requires Greedy(templates, p, parts).Match?
    ensures p <= Greedy(templates, p, parts).template
    decreases |parts|
  {
    if parts != [] {
      var key := if Extends(templates, p + [parts[0]]) then parts[0] else ":";
      if Extends(templates, p + [key]) {
        TemplateBelow(templates, p + [key], parts[1..]);
      }
    }
  }

  lemma ConflictIsFound(templates: set<Path>, p: Path, s: string, s': string)
    requires forall t :: t in templates ==> WildLast(t)
    requires Extends(templates, p + [s]) && Extends(templates, p + [s']) && IsVariable(s) && s != s'
    ensures !Complete(templates)
  {
    if s == ":" && s' == "*" {
      PreferredWins(templates, p, s, s');
    } else {
      PreferredWins(templates, p, s', s);
    }
  }

  /** `low` is the continuation that greedy matching prefers less, `high` the other. */
  lemma PreferredWins(templates: set<Path>, p: Path, high: string, low: string)
    requires forall t :: t in templates ==> WildLast(t)
    requires Extends(templates, p + [low]) && Extends(templates, p + [high]) && IsVariable(low) && low != high
    requires high != "*" && (high == ":" ==> low == "*")
    ensures !Complete(templates)
  {
    var z := FreshExists(templates);
    var t :| t in templates && p + [low] <= t;
    var u, x := t[|p| + 1..], if IsVariable(high) then z else high;
    SplitAt(t, p, low);
    assert !(p + [high] <= t) by {
      assert (p + [high])[|p|] == high;
    }
    assert p != [] ==> Extends(templates, [] + p) by {
      assert p <= t && [] + p == p;
    }
    hide Extends, Matches, Fill, Join, Greedy;
    assert "*" !in p && WildLast(p + [low] + u);
    hide WildLast;
    var parts := Fill(p, z) + ([x] + Fill(u, z));
    FillMatchesWithout(p, low, u, x, z);
    WalkFollowsFill(templates, [], p, [x] + Fill(u, z), z);
    assert [] + p == p;
    NothingFreshExtends(templates, p, z);
    HighIsTaken(templates, p, high, x, Fill(u, z));
  }

  lemma SplitAt(t: Path, p: Path, key: string)
    requires p + [key] <= t
    ensures t == p + [key] + t[|p| + 1..] && t[|p|] == key
    ensures WildLast(t) ==> "*" !in p
  {
    assert forall i :: 0 <= i < |p| ==> t[i] == p[i];
    assert (p + [key])[|p|] == key;
  }

  /** At `p` the walk prefers `high`, so whatever it reaches starts with it. */
  lemma HighIsTaken(templates: set<Path>, p: Path, high: string, x: string, tail: seq<string>)
    requires Extends(templates, p + [high]) && high != "*"
    requires if high == ":" then !Extends(templates, p + [x]) else x == high
    ensures var m := Greedy(templates, p, [x] + tail);
      m.Match? ==> p + [high] <= m.template
  {
    assert ([x] + tail)[1..] == tail;
    if Greedy(templates, p + [high], tail).Match? {
      TemplateBelow(templates, p + [high], tail);
    }
  }

  lemma {:induction false} FillIsPlain(t: Path, z: string)
    requires !IsVariable(z)
    ensures PlainParts(Fill(t, z)) && |Fill(t, z)| == |t|
  {
    if t == [] {
    } else {
      FillIsPlain(t[1..], z);
    }
  }

  lemma FillMatchesWithout(p: Path, v: string, u: Path, x: string, z: string)
    requires WildLast(p + [v] + u) && IsVariable(v) && !IsVariable(z) && "*" !in p
    ensures Matches(p + [v] + u, Fill(p, z) + ([x] + Fill(u, z)))
    ensures !IsVariable(x) ==> PlainParts(Fill(p, z) + ([x] + Fill(u, z)))
  {
    hide Matches, Fill, IsVariable;
    FilledAroundMatches(p, v, u, x, z);
    FillIsPlain(p, z);
    FillIsPlain(u, z);
  }

  lemma {:induction false} FilledAroundMatches(p: Path, v: string, u: Path, x: string, z: string)
    requires WildLast(p + [v] + u) && IsVariable(v) && !IsVariable(z) && "*" !in p
    ensures Matches(p + [v] + u, Fill(p, z) + ([x] + Fill(u, z)))
    decreases |p|
  {
    var t, parts := p + [v] + u, Fill(p, z) + ([x] + Fill(u, z));
    if p == [] {
      assert t[0] == v && t[1..] == u && parts[0] == x && parts[1..] == Fill(u, z);
      assert forall i :: 0 <= i < |u| ==> u[i] == t[i + 1];
      FilledMatches(u, z);
    } else {
      assert t[0] == p[0] && t[1..] == p[1..] + [v] + u;
      assert parts[1..] == Fill(p[1..], z) + ([x] + Fill(u, z));
      assert forall i :: 0 <= i < |t[1..]| ==> t[1..][i] == t[i + 1];
      FilledAroundMatches(p[1..], v, u, x, z);
    }
  }

  /** Beside a literal, a parameter is not tried: the request `/a/y` misses `/:id/y` once `/a/x` is registered. */
  lemma LiteralHidesParameter()
    ensures var templates, parts := {["a", "x"], [":", "y"]}, ["a", "y"];
            PlainParts(parts) && Matches([":", "y"], parts) && Greedy(templates, [], parts).NoMatch?
  {
    var templates: set<Path>, parts := {["a", "x"], [":", "y"]}, ["a", "y"];
    assert [":", "y"][1..] == ["y"] && parts[1..] == ["y"] && ["y"][1..] == [];
    assert [] + ["a"] <= ["a", "x"];
    assert Extends(templates, [] + ["a"]);
    var p: Path := [] + ["a"];
    forall k | k in {"y", ":", "*"}
      ensures !Extends(templates, p + [k])
    {
      forall t | t in templates
        ensures !(p + [k] <= t)
      {
        assert (p + [k])[1] == k && (p + [k])[0] == "a";
      }
    }
    GreedyStep(templates, [], parts);
    GreedyStep(templates, p, ["y"]);
  }

  /** Greedy matching without backtracking finds exactly the matching templates, for every plain request, if and only
      if no template prefix has a variable continuation beside another one. */
  lemma CompleteExactly(templates: set<Path>)
    requires forall t :: t in templates ==> WildLast(t)
    ensures Complete(templates) <==> NoConflict(templates)
  {
    if NoConflict(templates) {
      NoConflictIsEnough(templates);
    } else {
      var p: Path, s: string, s': string :|
        Extends(templates, p + [s]) && Extends(templates, p + [s']) && IsVariable(s) && s != s';
      ConflictIsFound(templates, p, s, s');
    }
  }
}
