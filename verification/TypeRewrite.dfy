/** The type rewriting of the concurrentviper generator (pkg/common/concurrentviper/gen/main.go):
    signatures of package viper are moved to a generated package that imports viper. */
module TypeRewrite {

  const VIPER_PATH := "github.com/spf13/viper"

  /** Type expressions. A function without results has an empty list of them. `Other` are the shapes
      that RewriteType does not descend into: arrays, maps, channels, interfaces and so on. */
  datatype Expr =
    | Ident(name: string)
    | Selector(pkg: string, name: string)
    | Star(elem: Expr)
    | Ellipsis(elem: Expr)
    | Func(params: seq<Expr>, results: seq<Expr>)
    | Other(shape: string, parts: seq<Expr>)

  /** The loaded package: the type names each of its files declares, and its imports from path to package name. */
  datatype Package = Package(files: seq<seq<string>>, imports: map<string, string>)

  function DeclaredTypes(pkg: Package): set<string> {
    set i, j | 0 <= i < |pkg.files| && 0 <= j < |pkg.files[i]| :: pkg.files[i][j]
  }

  // ---------- meaning ----------

  datatype Meaning =
    | Predeclared(name: string)
    | Named(path: string, name: string)
    | Undefined(pkg: string, name: string)
    | Pointer(elem: Meaning)
    | Variadic(elem: Meaning)
    | Function(params: seq<Meaning>, results: seq<Meaning>)
    | Compound(shape: string, parts: seq<Meaning>)

  predicate Exported(name: string) { name != "" && 'A' <= name[0] <= 'Z' }

  /** Where names are looked up: the package's own types, which hide predeclared ones, the predeclared
      types, and the imports by the names they have in the file. */
  datatype Scope = Scope(types: set<string>, universe: set<string>, imports: map<string, string>)

  /** What e denotes in the scope of package viper, or of the generated package, which declares no types. */
  function Resolve(e: Expr, scope: Scope): Meaning
    decreases e, 1
  {
    match e
    case Ident(n) =>
      if n in scope.types then Named(VIPER_PATH, n)
      else if n in scope.universe then Predeclared(n)
      else Undefined("", n)
    case Selector(p, n) =>
      if p in scope.imports && Exported(n) then Named(scope.imports[p], n) else Undefined(p, n)
    case Star(x) => Pointer(Resolve(x, scope))
    case Ellipsis(x) => Variadic(Resolve(x, scope))
    case Func(ps, rs) => Function(Meanings(ps, scope), Meanings(rs, scope))
    case Other(shape, xs) => Compound(shape, Meanings(xs, scope))
  }

  function Meanings(es: seq<Expr>, scope: Scope): (ms: seq<Meaning>)
    ensures |ms| == |es| && forall i | 0 <= i < |es| :: ms[i] == Resolve(es[i], scope)
    decreases es, 0
  {
    if es == [] then [] else Meanings(es[..|es| - 1], scope) + [Resolve(es[|es| - 1], scope)]
  }

  // ---------- the rewriting ----------

  /** Whether RewriteType takes the name for a type of the package. */
  predicate Defines(scope: Scope, name: string) {
    name !in scope.universe && name in scope.types
  }

  function Rewrite(e: Expr, scope: Scope): Expr
    decreases e, 1
  {
    match e
    case Ident(n) => if Defines(scope, n) then Selector("viper", n) else e
    case Selector(_, _) => e
    case Star(x) => Star(Rewrite(x, scope))
    case Ellipsis(x) => Ellipsis(Rewrite(x, scope))
    case Func(ps, rs) => Func(Rewrites(ps, scope), Rewrites(rs, scope))
    case Other(_, _) => e
  }

  function Rewrites(es: seq<Expr>, scope: Scope): (rs: seq<Expr>)
    ensures |rs| == |es| && forall i | 0 <= i < |es| :: rs[i] == Rewrite(es[i], scope)
    decreases es, 0
  {
    if es == [] then [] else Rewrites(es[..|es| - 1], scope) + [Rewrite(es[|es| - 1], scope)]
  }

  ghost function AllMentions(es: seq<Expr>): (all: set<string>)
    ensures forall i | 0 <= i < |es| :: Mentions(es[i]) <= all
    decreases es, 0
  {
    if es == [] then {} else AllMentions(es[..|es| - 1]) + Mentions(es[|es| - 1])
  }

  /** The packages that RewriteType marks as needed. */
  ghost function Mentions(e: Expr): set<string>
    decreases e, 1
  {
    match e
    case Ident(_) => {}
    case Selector(p, _) => {p}
    case Star(x) => Mentions(x)
    case Ellipsis(x) => Mentions(x)
    case Func(ps, rs) => AllMentions(ps) + AllMentions(rs)
    case Other(_, _) => {}
  }

  datatype ImportSpec = ImportSpec(name: string, path: string)

  function PathOf(nameToPath: map<string, string>, name: string): string {
    if name in nameToPath then nameToPath[name] else ""
  }

  class DefinitionTracker {
    const pkg: Package
    const universe: set<string>
    var nameToPath: map<string, string>
    var needed: set<string>

    ghost function Inside(imports: map<string, string>): Scope { Scope(DeclaredTypes(pkg), universe, imports) }

    /** Of imports with one package name any may win. */
    constructor (pkg: Package, universe: set<string>)
      ensures this.pkg == pkg && this.universe == universe && needed == {}
      ensures nameToPath.Keys == pkg.imports.Values
      ensures forall name | name in nameToPath :: nameToPath[name] in pkg.imports && pkg.imports[nameToPath[name]] == name
    {
      this.pkg, this.universe, needed := pkg, universe, {};
      var names: map<string, string> := map[];
      var rest := pkg.imports.Keys;
      while rest != {}
        invariant rest <= pkg.imports.Keys
        invariant forall path | path in pkg.imports && path !in rest :: pkg.imports[path] in names
        invariant forall name | name in names :: names[name] in pkg.imports && pkg.imports[names[name]] == name
      {
        var path :| path in rest;
        rest := rest - {path};
        names := names[pkg.imports[path] := path];
      }
      nameToPath := names;
    }

    method MarkNeeded(name: string, path: string)
      modifies this
      ensures nameToPath == old(nameToPath)[name := path] && needed == old(needed) + {name}
    {
      nameToPath := nameToPath[name := path];
      needed := needed + {name};
    }

    method PackageDefinesType(name: string) returns (yes: bool)
      ensures yes <==> name !in universe && name in DeclaredTypes(pkg)
      ensures yes <==> name !in universe && exists file | file in pkg.files :: name in file
    {
      if name in universe {
        return false;
      }
      for i := 0 to |pkg.files|
        invariant forall k | 0 <= k < i :: name !in pkg.files[k]
      {
        for j := 0 to |pkg.files[i]|
          invariant name !in pkg.files[i][..j]
        {
          if pkg.files[i][j] == name {
            return true;
          }
        }
      }
      return false;
    }

    method RewriteType(e: Expr) returns (r: Expr)
      modifies this`needed
      ensures r == Rewrite(e, Inside(map[]))
      ensures needed == old(needed) + Mentions(e)
      decreases e, 1
    {
      match e {
        case Ident(n) =>
          var defines := PackageDefinesType(n);
          r := if defines then Selector("viper", n) else e;
        case Selector(p, _) =>
          needed := needed + {p};
          r := e;
        case Star(x) =>
          var y := RewriteType(x);
          r := Star(y);
        case Ellipsis(x) =>
          var y := RewriteType(x);
          r := Ellipsis(y);
        case Func(ps, rs) =>
          var params := RewriteFields(ps);
          var results := RewriteFields(rs);
          r := Func(params, results);
        case Other(_, _) =>
          r := e;
      }
    }

    method RewriteFields(fields: seq<Expr>) returns (r: seq<Expr>)
      modifies this`needed
      ensures r == Rewrites(fields, Inside(map[]))
      ensures needed == old(needed) + AllMentions(fields)
      decreases fields, 0
    {
      r := [];
      for i := 0 to |fields|
        invariant r == Rewrites(fields[..i], Inside(map[]))
        invariant needed == old(needed) + AllMentions(fields[..i])
      {
        assert fields[..i + 1][..i] == fields[..i];
        assert fields[i] in fields;
        var field := RewriteType(fields[i]);
        r := r + [field];
      }
      assert fields[..|fields|] == fields;
    }

    /** One import for each needed package, in any order; a name without path is imported from "". */
    method Imports() returns (specs: seq<ImportSpec>)
      ensures forall name :: name in needed <==> ImportSpec(name, PathOf(nameToPath, name)) in specs
      ensures forall spec | spec in specs :: spec == ImportSpec(spec.name, PathOf(nameToPath, spec.name))
      ensures |specs| == |needed|
    {
      specs := [];
      var rest := needed;
      while rest != {}
        invariant rest <= needed
        invariant forall name :: name in needed - rest <==> ImportSpec(name, PathOf(nameToPath, name)) in specs
        invariant forall spec | spec in specs :: spec == ImportSpec(spec.name, PathOf(nameToPath, spec.name))
        invariant |specs| == |needed| - |rest|
      {
        var name :| name in rest;
        rest := rest - {name};
        specs := specs + [ImportSpec(name, PathOf(nameToPath, name))];
      }
    }
  }

  function ImportMap(specs: seq<ImportSpec>): map<string, string> {
    if specs == [] then map[] else ImportMap(specs[..|specs| - 1])[specs[|specs| - 1].name := specs[|specs| - 1].path]
  }

  /** The scope that a list of import specs makes in the generated package. */
  function Generated(specs: seq<ImportSpec>, universe: set<string>): Scope {
    Scope({}, universe, ImportMap(specs))
  }

  /** The imports a run emits. */
  function Emitted(needed: set<string>, nameToPath: map<string, string>): map<string, string> {
    map name | name in needed + {"sync", "viper"} :: PathOf(nameToPath, name)
  }

  /** Besides the packages that are mentioned, sync and viper are imported; a package without a path from "". */
  lemma EmittedPaths(needed: set<string>, nameToPath: map<string, string>, name: string)
    ensures name in Emitted(needed, nameToPath) <==> name in needed || name == "sync" || name == "viper"
    ensures name in Emitted(needed, nameToPath) ==>
      Emitted(needed, nameToPath)[name] == if name in nameToPath.Keys then nameToPath[name] else ""
  {
  }

  lemma {:induction false} ImportMapKeys(specs: seq<ImportSpec>)
    ensures forall name :: name in ImportMap(specs) <==> exists spec | spec in specs :: spec.name == name
    ensures forall name | name in ImportMap(specs) :: ImportSpec(name, ImportMap(specs)[name]) in specs
  {
    if specs == [] {
    } else {
      assert specs == specs[..|specs| - 1] + [specs[|specs| - 1]];
      ImportMapKeys(specs[..|specs| - 1]);
    }
  }

  lemma ImportMapOf(specs: seq<ImportSpec>, needed: set<string>, nameToPath: map<string, string>)
    requires forall name :: name in needed <==> ImportSpec(name, PathOf(nameToPath, name)) in specs
    requires forall spec | spec in specs :: spec == ImportSpec(spec.name, PathOf(nameToPath, spec.name))
    ensures ImportMap(specs) == map name | name in needed :: PathOf(nameToPath, name)
  {
    ImportMapKeys(specs);
    forall name
      ensures name in ImportMap(specs) <==> name in needed
    {
      if name in needed {
        assert ImportSpec(name, PathOf(nameToPath, name)) in specs;
      }
    }
  }

  lemma EmittedBy(specs: seq<ImportSpec>, mentions: set<string>, needed: set<string>, nameToPath: map<string, string>)
    requires needed == {"sync"} + {"viper"} + mentions
    requires forall name :: name in needed <==> ImportSpec(name, PathOf(nameToPath, name)) in specs
    requires forall spec | spec in specs :: spec == ImportSpec(spec.name, PathOf(nameToPath, spec.name))
    ensures ImportMap(specs) == Emitted(mentions, nameToPath)
  {
    ImportMapOf(specs, needed, nameToPath);
  }

  /** The tracker's names: those of the imports, with sync and viper set. */
  ghost predicate NamesFrom(pkg: Package, nameToPath: map<string, string>) {
    && nameToPath.Keys == pkg.imports.Values + {"sync", "viper"}
    && nameToPath["sync"] == "sync" && nameToPath["viper"] == VIPER_PATH
    && forall name | name in nameToPath && name != "sync" && name != "viper" ::
      nameToPath[name] in pkg.imports && pkg.imports[nameToPath[name]] == name
  }

  /** The whole run: every parameter and result type of every exported function is rewritten, and then the imports are emitted. */
  method Generate(pkg: Package, universe: set<string>, fields: seq<Expr>)
    returns (rewritten: seq<Expr>, specs: seq<ImportSpec>, ghost nameToPath: map<string, string>)
    ensures rewritten == Rewrites(fields, Scope(DeclaredTypes(pkg), universe, map[]))
    ensures NamesFrom(pkg, nameToPath)
    ensures Generated(specs, universe) == Scope({}, universe, Emitted(AllMentions(fields), nameToPath))
  {
    var tracker := new DefinitionTracker(pkg, universe);
    tracker.MarkNeeded("sync", "sync");
    tracker.MarkNeeded("viper", VIPER_PATH);
    nameToPath := tracker.nameToPath;
    rewritten := tracker.RewriteFields(fields);
    specs := tracker.Imports();
    EmittedBy(specs, AllMentions(fields), tracker.needed, nameToPath);
  }

  // ---------- meaning is preserved exactly when ----------

  predicate SameImport(p: string, a: map<string, string>, b: map<string, string>) {
    (p in a <==> p in b) && (p in a ==> a[p] == b[p])
  }

  /** What an untouched expression needs: no name of the package, and each selected package imported alike. */
  ghost predicate Portable(e: Expr, inside: Scope, outside: Scope)
    decreases e
  {
    match e
    case Ident(n) => n !in inside.types
    case Selector(p, n) => Exported(n) ==> SameImport(p, inside.imports, outside.imports)
    case Star(x) => Portable(x, inside, outside)
    case Ellipsis(x) => Portable(x, inside, outside)
    case Func(ps, rs) =>
      && (forall i | 0 <= i < |ps| :: Portable(ps[i], inside, outside))
      && (forall i | 0 <= i < |rs| :: Portable(rs[i], inside, outside))
    case Other(_, xs) => forall i | 0 <= i < |xs| :: Portable(xs[i], inside, outside)
  }

  /** What a rewritten expression needs: the package's own types are exported and hide no predeclared type,
      each selected package is imported alike, and the shapes not descended into are portable. */
  ghost predicate Faithful(e: Expr, inside: Scope, outside: Scope)
    decreases e
  {
    match e
    case Ident(n) => n in inside.types ==> n !in inside.universe && Exported(n)
    case Selector(p, n) => Exported(n) ==> SameImport(p, inside.imports, outside.imports)
    case Star(x) => Faithful(x, inside, outside)
    case Ellipsis(x) => Faithful(x, inside, outside)
    case Func(ps, rs) =>
      && (forall i | 0 <= i < |ps| :: Faithful(ps[i], inside, outside))
      && (forall i | 0 <= i < |rs| :: Faithful(rs[i], inside, outside))
    case Other(_, xs) => forall i | 0 <= i < |xs| :: Portable(xs[i], inside, outside)
  }

  lemma {:induction false} AllPortableExactly(es: seq<Expr>, inside: Scope, outside: Scope)
    requires outside.types == {} && outside.universe == inside.universe
    ensures Meanings(es, outside) == Meanings(es, inside) <==> forall i | 0 <= i < |es| :: Portable(es[i], inside, outside)
    decreases es, 0
  {
    forall i | 0 <= i < |es|
      ensures Meanings(es, outside)[i] == Meanings(es, inside)[i] <==> Portable(es[i], inside, outside)
    {
      PortableExactly(es[i], inside, outside);
    }
  }

  lemma {:induction false} PortableExactly(e: Expr, inside: Scope, outside: Scope)
    requires outside.types == {} && outside.universe == inside.universe
    ensures Resolve(e, outside) == Resolve(e, inside) <==> Portable(e, inside, outside)
    decreases e, 1
  {
    match e
    case Ident(_) =>
    case Selector(_, _) =>
    case Star(x) => PortableExactly(x, inside, outside);
    case Ellipsis(x) => PortableExactly(x, inside, outside);
    case Func(ps, rs) =>
      AllPortableExactly(ps, inside, outside);
      AllPortableExactly(rs, inside, outside);
    case Other(_, xs) =>
      AllPortableExactly(xs, inside, outside);
  }

  lemma {:induction false} AllPreservedExactly(es: seq<Expr>, inside: Scope, outside: Scope)
    requires outside.types == {} && outside.universe == inside.universe
    requires "viper" in outside.imports && outside.imports["viper"] == VIPER_PATH
    ensures Meanings(Rewrites(es, inside), outside) == Meanings(es, inside) <==>
      forall i | 0 <= i < |es| :: Faithful(es[i], inside, outside)
    decreases es, 0
  {
    forall i | 0 <= i < |es|
      ensures Meanings(Rewrites(es, inside), outside)[i] == Meanings(es, inside)[i] <==> Faithful(es[i], inside, outside)
    {
      PreservedExactly(es[i], inside, outside);
    }
  }

  lemma {:induction false} FunctionPreservedExactly(ps: seq<Expr>, rs: seq<Expr>, inside: Scope, outside: Scope)
    requires outside.types == {} && outside.universe == inside.universe
    requires "viper" in outside.imports && outside.imports["viper"] == VIPER_PATH
    ensures Resolve(Rewrite(Func(ps, rs), inside), outside) == Resolve(Func(ps, rs), inside) <==> Faithful(Func(ps, rs), inside, outside)
    decreases Func(ps, rs), 0
  {
    AllPreservedExactly(ps, inside, outside);
    AllPreservedExactly(rs, inside, outside);
  }

  /** For every type expression: the rewritten one means in the generated package what the original meant
      in viper if and only if it is faithful. */
  lemma {:induction false} PreservedExactly(e: Expr, inside: Scope, outside: Scope)
    requires outside.types == {} && outside.universe == inside.universe
    requires "viper" in outside.imports && outside.imports["viper"] == VIPER_PATH
    ensures Resolve(Rewrite(e, inside), outside) == Resolve(e, inside) <==> Faithful(e, inside, outside)
    decreases e, 1
  {
    match e
    case Ident(_) =>
    case Selector(_, _) =>
    case Star(x) => PreservedExactly(x, inside, outside);
    case Ellipsis(x) => PreservedExactly(x, inside, outside);
    case Func(ps, rs) =>
      FunctionPreservedExactly(ps, rs, inside, outside);
    case Other(_, _) => PortableExactly(e, inside, outside);
  }

  /** The imports do not matter to the rewriting itself. */
  lemma {:induction false} RewriteIgnoresImports(e: Expr, scope: Scope, imports: map<string, string>)
    ensures Rewrite(e, scope) == Rewrite(e, scope.(imports := imports))
    decreases e, 1
  {
    match e
    case Star(x) => RewriteIgnoresImports(x, scope, imports);
    case Ellipsis(x) => RewriteIgnoresImports(x, scope, imports);
    case Func(ps, rs) =>
      forall i | 0 <= i < |ps| {
        RewriteIgnoresImports(ps[i], scope, imports);
      }
      forall i | 0 <= i < |rs| {
        RewriteIgnoresImports(rs[i], scope, imports);
      }
    case _ =>
  }

  /** Rewriting twice is rewriting once. */
  lemma {:induction false} RewriteTwice(e: Expr, scope: Scope)
    ensures Rewrite(Rewrite(e, scope), scope) == Rewrite(e, scope)
    decreases e, 1
  {
    match e
    case Star(x) => RewriteTwice(x, scope);
    case Ellipsis(x) => RewriteTwice(x, scope);
    case Func(ps, rs) =>
      forall i | 0 <= i < |ps| {
        RewriteTwice(ps[i], scope);
      }
      forall i | 0 <= i < |rs| {
        RewriteTwice(rs[i], scope);
      }
    case _ =>
  }

  lemma {:induction false} MentionsOfRewrites(es: seq<Expr>, scope: Scope)
    ensures AllMentions(es) <= AllMentions(Rewrites(es, scope)) <= AllMentions(es) + {"viper"}
    decreases es, 0
  {
    if es == [] {
    } else {
      var front, last := es[..|es| - 1], es[|es| - 1];
      MentionsOfRewrites(front, scope);
      MentionsOfRewrite(last, scope);
      assert Rewrites(es, scope)[..|front|] == Rewrites(front, scope);
    }
  }

  /** A rewritten expression mentions nothing new but viper. */
  lemma {:induction false} MentionsOfRewrite(e: Expr, scope: Scope)
    ensures Mentions(e) <= Mentions(Rewrite(e, scope)) <= Mentions(e) + {"viper"}
    decreases e, 1
  {
    match e
    case Star(x) => MentionsOfRewrite(x, scope);
    case Ellipsis(x) => MentionsOfRewrite(x, scope);
    case Func(ps, rs) =>
      MentionsOfRewrites(ps, scope);
      MentionsOfRewrites(rs, scope);
    case _ =>
  }

  // ---------- over a whole run ----------

  /** After a run every package that a rewritten type mentions is imported, and each rewritten type means
      in the generated package what it meant in its file if and only if it is faithful. */
  lemma GeneratedTypesPreserved(pkg: Package, universe: set<string>, fields: seq<Expr>, nameToPath: map<string, string>,
                                i: nat, fileImports: map<string, string>)
    requires NamesFrom(pkg, nameToPath) && i < |fields|
    ensures
      var outside := Scope({}, universe, Emitted(AllMentions(fields), nameToPath));
      var inside := Scope(DeclaredTypes(pkg), universe, fileImports);
      var rewritten := Rewrites(fields, inside.(imports := map[]))[i];
      && Mentions(rewritten) <= outside.imports.Keys
      && (Resolve(rewritten, outside) == Resolve(fields[i], inside) <==> Faithful(fields[i], inside, outside))
  {
    var outside := Scope({}, universe, Emitted(AllMentions(fields), nameToPath));
    var inside := Scope(DeclaredTypes(pkg), universe, fileImports);
    RewriteIgnoresImports(fields[i], inside, map[]);
    PreservedExactly(fields[i], inside, outside);
    MentionsOfRewrite(fields[i], inside);
  }

  /** No shape that RewriteType does not descend into. */
  ghost predicate Plain(e: Expr)
    decreases e
  {
    match e
    case Star(x) => Plain(x)
    case Ellipsis(x) => Plain(x)
    case Func(ps, rs) => (forall i | 0 <= i < |ps| :: Plain(ps[i])) && (forall i | 0 <= i < |rs| :: Plain(rs[i]))
    case Other(_, _) => false
    case _ => true
  }

  /** Every package selected in e is imported. */
  ghost predicate Selects(e: Expr, imports: map<string, string>) {
    Mentions(e) <= imports.Keys
  }

  /** The file imports packages by their own names, no two packages of the import graph share one, and
      nothing else is called sync or viper. */
  ghost predicate Unaliased(pkg: Package, fileImports: map<string, string>) {
    && (forall p | p in fileImports :: fileImports[p] in pkg.imports && pkg.imports[fileImports[p]] == p)
    && (forall a, b | a in pkg.imports && b in pkg.imports && pkg.imports[a] == pkg.imports[b] :: a == b)
    && ("sync" in fileImports ==> fileImports["sync"] == "sync")
    && ("viper" in fileImports ==> fileImports["viper"] == VIPER_PATH)
  }

  /** Every type of the package that e names is exported and hides no predeclared one. */
  ghost predicate NamesExported(e: Expr, types: set<string>, universe: set<string>)
    decreases e
  {
    match e
    case Ident(n) => n in types ==> n !in universe && Exported(n)
    case Selector(_, _) => true
    case Star(x) => NamesExported(x, types, universe)
    case Ellipsis(x) => NamesExported(x, types, universe)
    case Func(ps, rs) =>
      && (forall i | 0 <= i < |ps| :: NamesExported(ps[i], types, universe))
      && (forall i | 0 <= i < |rs| :: NamesExported(rs[i], types, universe))
    case Other(_, xs) => forall i | 0 <= i < |xs| :: NamesExported(xs[i], types, universe)
  }

  /** The usual case. With distinct, unaliased imports a type built from identifiers, selectors, pointers, variadics and
      functions is faithful exactly if the types of the package that it names are exported and hide no predeclared one. */
  lemma {:induction false} UnaliasedIsFaithful(pkg: Package, universe: set<string>, needed: set<string>,
                                               nameToPath: map<string, string>, e: Expr, fileImports: map<string, string>)
    requires NamesFrom(pkg, nameToPath) && Unaliased(pkg, fileImports)
    requires Plain(e) && Selects(e, fileImports) && Mentions(e) <= needed
    ensures NamesExported(e, DeclaredTypes(pkg), universe) <==>
      Faithful(e, Scope(DeclaredTypes(pkg), universe, fileImports), Scope({}, universe, Emitted(needed, nameToPath)))
    decreases e
  {
    var inside, outside := Scope(DeclaredTypes(pkg), universe, fileImports), Scope({}, universe, Emitted(needed, nameToPath));
    match e
    case Selector(p, _) =>
      assert p in nameToPath;
    case Star(x) => UnaliasedIsFaithful(pkg, universe, needed, nameToPath, x, fileImports);
    case Ellipsis(x) => UnaliasedIsFaithful(pkg, universe, needed, nameToPath, x, fileImports);
    case Func(ps, rs) =>
      forall i | 0 <= i < |ps|
        ensures NamesExported(ps[i], inside.types, universe) <==> Faithful(ps[i], inside, outside)
      {
        assert Mentions(ps[i]) <= AllMentions(ps);
        UnaliasedIsFaithful(pkg, universe, needed, nameToPath, ps[i], fileImports);
      }
      forall i | 0 <= i < |rs|
        ensures NamesExported(rs[i], inside.types, universe) <==> Faithful(rs[i], inside, outside)
      {
        assert Mentions(rs[i]) <= AllMentions(rs);
        UnaliasedIsFaithful(pkg, universe, needed, nameToPath, rs[i], fileImports);
      }
    case _ =>
  }

  // ---------- types that lose their meaning ----------

  /** In a package with an exported type Viper and an unexported optionFunc, read in a file that imports context from a
      path of its own: the unexported type, the exported one inside an array, and the aliased selector. */
  lemma UnfaithfulExamples() returns (inside: Scope, outside: Scope)
    ensures inside == Scope({"Viper", "optionFunc"}, {"string"}, map["context" := "own/context"])
    ensures outside == Scope({}, {"string"}, map["viper" := VIPER_PATH, "context" := "context"])
    ensures forall e | e in {Ident("optionFunc"), Other("array", [Ident("Viper")]), Selector("context", "Context")} ::
      Resolve(Rewrite(e, inside), outside) != Resolve(e, inside)
    ensures Resolve(Rewrite(Star(Ident("Viper")), inside), outside) == Resolve(Star(Ident("Viper")), inside)
  {
    inside := Scope({"Viper", "optionFunc"}, {"string"}, map["context" := "own/context"]);
    outside := Scope({}, {"string"}, map["viper" := VIPER_PATH, "context" := "context"]);
    PreservedExactly(Ident("optionFunc"), inside, outside);
    PreservedExactly(Other("array", [Ident("Viper")]), inside, outside);
    assert !Portable([Ident("Viper")][0], inside, outside);
    PreservedExactly(Selector("context", "Context"), inside, outside);
  }
}
