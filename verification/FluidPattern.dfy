/** Match patterns (libshared/FluidPattern.ml). */
module FluidPattern {

  type Id = int

  /** A pattern carries the id of the match it belongs to and its own id. */
  datatype Pattern =
    | FPVariable(matchID: Id, patternID: Id, name: string)
    | FPConstructor(matchID: Id, patternID: Id, ctor: string, patterns: seq<Pattern>)
    | FPInteger(matchID: Id, patternID: Id, value: string)
    | FPBool(matchID: Id, patternID: Id, b: bool)
    | FPString(matchID: Id, patternID: Id, str: string)
    | FPFloat(matchID: Id, patternID: Id, whole: string, fraction: string)
    | FPNull(matchID: Id, patternID: Id)
    | FPBlank(matchID: Id, patternID: Id)

  /** The ids of a pattern and of all patterns inside it, without match ids. */
  function Ids(p: Pattern): multiset<Id>
    decreases p, 1
  {
    multiset{p.patternID} + if p.FPConstructor? then IdsOfAll(p.patterns) else multiset{}
  }

  function IdsOfAll(ps: seq<Pattern>): multiset<Id>
    decreases ps, 0
  {
    if |ps| == 0 then multiset{} else Ids(ps[0]) + IdsOfAll(ps[1..])
  }

  /** The names a pattern binds, left to right. */
  function VariableNames(p: Pattern): seq<string>
    decreases p, 1
  {
    match p
    case FPVariable(_, _, name) => [name]
    case FPConstructor(_, _, _, patterns) => VariableNamesOfAll(patterns)
    case _ => []
  }

  function VariableNamesOfAll(ps: seq<Pattern>): seq<string>
    decreases ps, 0
  {
    if |ps| == 0 then [] else VariableNames(ps[0]) + VariableNamesOfAll(ps[1..])
  }

  predicate HasVariableNamed(name: string, p: Pattern) {
    name in VariableNames(p)
  }

  /** A variable of that name occurs in the pattern, at any depth. */
  predicate Binds(p: Pattern, name: string)
    decreases p, 1
  {
    (p.FPVariable? && p.name == name)
    || (p.FPConstructor? && exists i :: 0 <= i < |p.patterns| && Binds(p.patterns[i], name))
  }

  /** The names bound are those of the variables at any depth. */
  lemma {:induction false} NamesAreBound(p: Pattern, name: string)
    ensures HasVariableNamed(name, p) <==> Binds(p, name)
    decreases p, 1
  {
    if p.FPConstructor? { NamesOfAllAreBound(p.patterns, name); }
  }

  lemma {:induction false} NamesOfAllAreBound(ps: seq<Pattern>, name: string)
    ensures name in VariableNamesOfAll(ps) <==> exists i :: 0 <= i < |ps| && Binds(ps[i], name)
    decreases ps, 0
  {
    if |ps| == 0 {
    } else {
      NamesAreBound(ps[0], name);
      NamesOfAllAreBound(ps[1..], name);
      if i :| 0 <= i < |ps| && Binds(ps[i], name) {
        assert i > 0 ==> ps[1..][i - 1] == ps[i];
      }
      if i :| 0 <= i < |ps[1..]| && Binds(ps[1..][i], name) {
        assert ps[i + 1] == ps[1..][i];
      }
    }
  }
}
