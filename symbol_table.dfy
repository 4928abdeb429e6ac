/**
 * Symbols and scopes. A scope keeps its own symbols, keyed by identifier,
 * and a reference to the scope it is nested in; looking a name up walks
 * that chain outwards. `Scope` and the functions over a chain of them,
 * outermost first, are the value the linked scopes stand for; the class
 * `ScopedSymbolTable` is a scope object as the analyzer builds and mutates
 * it, and `Chain()` maps a scope object to that value.
 */
module SymbolTable {
  import opened Wrappers
  import Tokens
  import Ast

  /** The symbol classes. A constant's `is_constant` is true by construction, so it is not stored. */
  datatype Symbol =
    | BuiltInTypeSymbol(identifier: string)
    | VariableSymbol(identifier: string, symbolType: string)
    | ConstantSymbol(identifier: string, symbolType: string)
    | FunctionSymbol(identifier: string, parameters: Option<seq<Symbol>>, giveType: string, block: Ast.Block)
    | ProcedureSymbol(identifier: string, parameters: Option<seq<Symbol>>, block: Ast.Block)

  /** `is_constant`: only constant symbols carry the attribute, and it is always true. */
  predicate IsConstant(s: Symbol)
  {
    s.ConstantSymbol?
  }

  datatype ScopeType = ProgramScope | FunctionScope | ProcedureScope | IfBlock | ElifBlock | ElseBlock | WhileBlock

  /** A scope as a value: its name, type, nesting level and own symbols. */
  datatype Scope = Scope(name: string, scopeType: ScopeType, level: int, symbols: map<string, Symbol>)

  /** The built-in types a level-1 scope is created with, in the order they are defined. */
  const BuiltInTypes: seq<Symbol> := [
    BuiltInTypeSymbol(Tokens.Value(Tokens.NumberType)),
    BuiltInTypeSymbol(Tokens.Value(Tokens.StringType)),
    BuiltInTypeSymbol(Tokens.Value(Tokens.BooleanType))]

  /** `define`: the entry keyed by the symbol's identifier is inserted or replaced. */
  function Defined(symbols: map<string, Symbol>, s: Symbol): map<string, Symbol>
  {
    symbols[s.identifier := s]
  }

  /** Each symbol of `ss` defined in turn. */
  function DefineAll(symbols: map<string, Symbol>, ss: seq<Symbol>): (m: map<string, Symbol>)
    ensures symbols.Keys <= m.Keys
    ensures ss != [] ==> ss[|ss| - 1].identifier in m && m[ss[|ss| - 1].identifier] == ss[|ss| - 1]
    decreases |ss|
  {
    if ss == [] then symbols else DefineAll(Defined(symbols, ss[0]), ss[1..])
  }

  /** What a new scope holds: the built-in types at level 1, nothing at any other level. */
  function InitialSymbols(level: int): map<string, Symbol>
  {
    if level == 1 then DefineAll(map[], BuiltInTypes) else map[]
  }

  /** The level-1 scope has exactly the three built-in types, each under its own name; deeper scopes start empty. */
  lemma BuiltInScope(level: int)
    ensures level == 1 ==> InitialSymbols(level).Keys == {"number", "string", "boolean"}
    ensures level == 1 ==> forall name | name in InitialSymbols(level) :: InitialSymbols(level)[name] == BuiltInTypeSymbol(name)
    ensures level != 1 ==> InitialSymbols(level) == map[]
  {
    var number, str, boolean := BuiltInTypeSymbol("number"), BuiltInTypeSymbol("string"), BuiltInTypeSymbol("boolean");
    assert Tokens.Value(Tokens.NumberType) == "number";
    assert Tokens.Value(Tokens.StringType) == "string";
    assert Tokens.Value(Tokens.BooleanType) == "boolean";
    assert BuiltInTypes == [number, str, boolean];
    var m1 := map["number" := number];
    var m2 := m1["string" := str];
    var m3 := m2["boolean" := boolean];
    assert DefineAll(map[], BuiltInTypes) == DefineAll(m1, [str, boolean]);
    assert DefineAll(m1, [str, boolean]) == DefineAll(m2, [boolean]);
    assert DefineAll(m2, [boolean]) == DefineAll(m3, []);
  }

  /** `define` changes the entry of the symbol's identifier and no other. */
  lemma DefineOnlyItsKey(symbols: map<string, Symbol>, s: Symbol, name: string)
    ensures name == s.identifier ==> name in Defined(symbols, s) && Defined(symbols, s)[name] == s
    ensures name != s.identifier ==> (name in Defined(symbols, s) <==> name in symbols)
    ensures name != s.identifier && name in symbols ==> Defined(symbols, s)[name] == symbols[name]
  {
  }

  /** `lookup(name, current_scope_only=True)`: only the scope's own symbols. */
  function LookupCurrent(scope: Scope, name: string): (r: Option<Symbol>)
    ensures r.Some? <==> name in scope.symbols
    ensures r.Some? ==> r.value == scope.symbols[name] && r.value in scope.symbols.Values
  {
    if name in scope.symbols then Some(scope.symbols[name]) else None
  }

  /** `lookup(name)` on the innermost scope of a chain: the first scope, from the inside out, that has the name. */
  function LookupChain(chain: seq<Scope>, name: string): (r: Option<Symbol>)
    ensures r.Some? ==> exists k | 0 <= k < |chain| :: name in chain[k].symbols && chain[k].symbols[name] == r.value
    decreases |chain|
  {
    if chain == [] then None
    else if name in chain[|chain| - 1].symbols then Some(chain[|chain| - 1].symbols[name])
    else LookupChain(chain[..|chain| - 1], name)
  }

  /**
   * The innermost binding wins: a successful lookup finds the name in some
   * scope, and no scope nested inside that one has it.
   */
  lemma {:induction false} LookupInnermost(chain: seq<Scope>, name: string)
    requires LookupChain(chain, name).Some?
    ensures exists i | 0 <= i < |chain| ::
      && name in chain[i].symbols && chain[i].symbols[name] == LookupChain(chain, name).value
      && forall j | i < j < |chain| :: name !in chain[j].symbols
    decreases |chain|
  {
    var n := |chain| - 1;
    if name in chain[n].symbols {
      assert name in chain[n].symbols && chain[n].symbols[name] == LookupChain(chain, name).value;
    } else {
      var prefix := chain[..n];
      LookupInnermost(prefix, name);
      var i :| 0 <= i < |prefix| && name in prefix[i].symbols && prefix[i].symbols[name] == LookupChain(prefix, name).value
        && forall j | i < j < |prefix| :: name !in prefix[j].symbols;
      assert forall j | i < j < |chain| :: name !in chain[j].symbols by {
        forall j | i < j < |chain|
          ensures name !in chain[j].symbols
        {
          if j < n {
            assert chain[j] == prefix[j];
          }
        }
      }
    }
  }

  /** A lookup comes back empty exactly when no scope of the chain has the name. */
  lemma {:induction false} LookupNone(chain: seq<Scope>, name: string)
    ensures LookupChain(chain, name).None? <==> forall i | 0 <= i < |chain| :: name !in chain[i].symbols
    decreases |chain|
  {
    if chain != [] {
      var n := |chain| - 1;
      LookupNone(chain[..n], name);
      assert forall i | 0 <= i < n :: chain[..n][i] == chain[i];
    }
  }

  /** An inner scope that has the name hides every outer binding of it. */
  lemma Shadowing(outer: seq<Scope>, inner: Scope, name: string)
    requires name in inner.symbols
    ensures LookupChain(outer + [inner], name) == Some(inner.symbols[name])
  {
    assert (outer + [inner])[|outer|] == inner;
  }

  /** A scope that lacks the name defers to the scopes around it. */
  lemma LookupSkipsScope(outer: seq<Scope>, inner: Scope, name: string)
    requires name !in inner.symbols
    ensures LookupChain(outer + [inner], name) == LookupChain(outer, name)
  {
    assert (outer + [inner])[|outer|] == inner;
    assert (outer + [inner])[..|outer|] == outer;
  }

  /**
   * A scope object. Only its symbols change after it is created; the scope
   * it is nested in, and `Repr`, the objects on the chain from it outwards,
   * are fixed.
   */
  class ScopedSymbolTable {
    const name: string
    const scopeType: ScopeType
    const level: int
    const enclosingScope: ScopedSymbolTable?
    ghost const Repr: set<ScopedSymbolTable>
    var symbols: map<string, Symbol>

    /** The chain from this scope outwards is finite and has no cycle. */
    ghost predicate Valid()
      decreases Repr
    {
      && this in Repr
      && (enclosingScope == null ==> Repr == {this})
      && (enclosingScope != null ==>
           && enclosingScope in Repr && enclosingScope.Repr <= Repr && this !in enclosingScope.Repr
           && Repr == {this} + enclosingScope.Repr
           && enclosingScope.Valid())
    }

    /** The chain as a value, outermost scope first. */
    ghost function Chain(): (c: seq<Scope>)
      requires Valid()
      reads Repr
      ensures |c| > 0 && c[|c| - 1] == Scope(name, scopeType, level, symbols)
      ensures enclosingScope == null <==> |c| == 1
      decreases Repr
    {
      var own := Scope(name, scopeType, level, symbols);
      if enclosingScope == null then [own] else enclosingScope.Chain() + [own]
    }

    /** `ScopedSymbolTable(name, type, level, enclosing_scope)`: a level-1 scope starts with the built-in types. */
    constructor (name: string, scopeType: ScopeType, level: int, enclosingScope: ScopedSymbolTable?)
      requires enclosingScope != null ==> enclosingScope.Valid()
      ensures Valid() && fresh(this)
      ensures this.name == name && this.scopeType == scopeType && this.level == level
      ensures this.enclosingScope == enclosingScope
      ensures symbols == InitialSymbols(level)
      ensures enclosingScope == null ==> Chain() == [Scope(name, scopeType, level, InitialSymbols(level))]
      ensures enclosingScope != null ==> Chain() == enclosingScope.Chain() + [Scope(name, scopeType, level, InitialSymbols(level))]
    {
      this.name := name;
      this.scopeType := scopeType;
      this.level := level;
      this.enclosingScope := enclosingScope;
      Repr := {this} + (if enclosingScope == null then {} else enclosingScope.Repr);
      symbols := map[];
      new;
      if level == 1 {
        for i := 0 to |BuiltInTypes|
          invariant DefineAll(symbols, BuiltInTypes[i..]) == DefineAll(map[], BuiltInTypes)
        {
          assert BuiltInTypes[i..][1..] == BuiltInTypes[i + 1..];
          Define(BuiltInTypes[i]);
        }
      }
    }

    /**
     * `define`: the symbol is stored under its identifier, replacing what was
     * there; seen as a chain, the innermost scope gets the entry.
     */
    method Define(symbol: Symbol)
      requires Valid()
      modifies this
      ensures symbols == Defined(old(symbols), symbol)
      ensures Chain() == DefineInnermost(old(Chain()), symbol)
    {
      symbols := symbols[symbol.identifier := symbol];
    }

    /** The enclosing scope's chain is this chain without its last scope. */
    lemma EnclosingChain()
      requires Valid() && enclosingScope != null
      ensures enclosingScope.Valid() && enclosingScope.Chain() == Chain()[..|Chain()| - 1]
    {
      assert Chain() == enclosingScope.Chain() + [Scope(name, scopeType, level, symbols)];
    }

    /** One step outwards along a chain this scope ends a prefix of: this scope is the prefix's last, its enclosing scope ends the prefix one shorter. */
    lemma ChainStep(chain: seq<Scope>, n: nat)
      requires Valid() && 0 < n <= |chain| && Chain() == chain[..n]
      ensures chain[n - 1] == Scope(name, scopeType, level, symbols)
      ensures enclosingScope == null <==> n == 1
      ensures enclosingScope != null ==> enclosingScope.Valid() && enclosingScope.Chain() == chain[..n - 1]
    {
      assert chain[..n][n - 1] == chain[n - 1];
      if enclosingScope != null {
        EnclosingChain();
        assert chain[..n][..n - 1] == chain[..n - 1];
      }
    }

    /** `lookup`: this scope's own symbols, then, unless only the current scope is asked for, the enclosing chain. */
    function Lookup(name: string, currentScopeOnly: bool): (r: Option<Symbol>)
      requires Valid()
      reads Repr
      ensures currentScopeOnly ==> r == LookupCurrent(Chain()[|Chain()| - 1], name)
      ensures !currentScopeOnly ==> r == LookupChain(Chain(), name)
      decreases Repr
    {
      if name in symbols then Some(symbols[name])
      else if !currentScopeOnly && enclosingScope != null then enclosingScope.Lookup(name, false)
      else None
    }
  }

  /** Defining in the innermost scope: the chain's last scope gets the new entry, the rest is left alone. */
  function DefineInnermost(chain: seq<Scope>, s: Symbol): (c: seq<Scope>)
    requires |chain| > 0
    ensures |c| == |chain| && c[..|c| - 1] == chain[..|chain| - 1]
  {
    var last := chain[|chain| - 1];
    chain[|chain| - 1 := last.(symbols := Defined(last.symbols, s))]
  }

  /** After a definition, the name resolves to the new symbol, and every other name resolves as before. */
  lemma DefineThenLookup(chain: seq<Scope>, s: Symbol, name: string)
    requires |chain| > 0
    ensures name == s.identifier ==> LookupChain(DefineInnermost(chain, s), name) == Some(s)
    ensures name != s.identifier ==> LookupChain(DefineInnermost(chain, s), name) == LookupChain(chain, name)
  {
    var n := |chain| - 1;
    var c := DefineInnermost(chain, s);
    assert c[..n] == chain[..n];
    assert c[n] == chain[n].(symbols := Defined(chain[n].symbols, s));
  }
}
