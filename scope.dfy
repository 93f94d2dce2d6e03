/**
 * `Hanami::View::Scope`: the evaluation context a template runs in. A scope
 * holds an optional name, its locals and the in-flight rendering; it never
 * changes after construction. It decides what a bare name used in a
 * template resolves to (locals, then the context object, then the
 * convenience aliases) and which scope a partial is rendered with.
 */
module ViewScope {
  import opened Wrappers
  import opened OrderedHash

  /** The application's context object, seen only through the methods it responds to. */
  datatype Context = Context(id: nat, methods: set<Name>)

  /** The in-flight rendering that the scopes of one render pass share. */
  datatype Rendering = Rendering(id: nat, format: Name, context: Context)

  /** A partial name as a caller may give it: a symbol, a string or a class. */
  datatype PartialName = Sym(symbol: Name) | Str(text: string) | ClassRef(qualifiedName: string)

  /** A scope: its name (nil for anonymous scopes), its locals and its rendering. */
  datatype Scope<V> = Scope(name: Option<PartialName>, locals: Hash<V>, rendering: Rendering)

  /** The exception `render` raises on an unnamed scope. */
  datatype Error = ArgumentError(message: string)

  /** `CONVENIENCE_METHODS`: names that stand for `_format`, `_context` and `_locals`. */
  const ConvenienceMethods: seq<Name> := ["format", "context", "locals"]

  const MissingPartialNameMessage: string := "+partial_name+ must be provided for unnamed scopes"

  /** The call `render` makes: `rendering.partial(partial, scope, &block)`. */
  datatype PartialCall<V> = PartialCall(rendering: Rendering, partial: PartialName, scope: Rescoped<Scope<V>>)

  /** The call `scope` makes: `rendering.scope(name, locals)`. */
  datatype ScopeCall<V> = ScopeCall(rendering: Rendering, name: Option<PartialName>, locals: Hash<V>)

  /** Where a missing method of a scope is sent. */
  datatype Lookup<V> =
    | Local(value: V)                 // the value of the local with that name
    | ForwardContext(context: Context) // the call is sent on to the context object
    | Alias(accessor: Name)           // the call goes to the underscore-prefixed accessor
    | NoMethod                        // `super`: Ruby raises NoMethodError

  /** Dry::Equalizer over `_name`, `_locals` (compared with `Hash#==`) and `_rendering`. */
  predicate Equal<V(==)>(s1: Scope<V>, s2: Scope<V>)
    ensures Equal(s1, s2) <==>
              s1.name == s2.name && SameLookups(s1.locals, s2.locals) && s1.rendering == s2.rendering
  {
    HashEqIffSameLookups(s1.locals, s2.locals);
    s1.name == s2.name && HashEq(s1.locals, s2.locals) && s1.rendering == s2.rendering
  }

  /** `_format`: the rendering's format. */
  function Format<V>(s: Scope<V>): (f: Name)
    ensures f == s.rendering.format
  {
    s.rendering.format
  }

  /** `_context`: the rendering's context object. */
  function ContextOf<V>(s: Scope<V>): (c: Context)
    ensures c == s.rendering.context
  {
    s.rendering.context
  }

  /**
   * A class given as a partial name becomes the snake-cased form of its
   * unqualified name, through the rendering's inflector; symbols and strings
   * pass unchanged.
   */
  function InflectPartialName(p: PartialName, underscore: string -> string, demodulize: string -> string): (q: PartialName)
    ensures !q.ClassRef?
    ensures !p.ClassRef? ==> q == p
    ensures p.ClassRef? ==> q == Str(underscore(demodulize(p.qualifiedName)))
  {
    if p.ClassRef? then Str(underscore(demodulize(p.qualifiedName))) else p
  }

  /**
   * `_render_scope(**locals)`: the scope a partial is rendered with. With no
   * locals it is the receiver itself; otherwise a new scope that holds only
   * the given locals (the receiver's are not merged in), has no name and
   * shares the receiver's rendering.
   */
  function RenderScope<V>(s: Scope<V>, locals: Hash<V>): (r: Rescoped<Scope<V>>)
    ensures r.Same? <==> locals == []
    ensures r.New? ==> r.value.locals == locals && r.value.name.None? && r.value.rendering == s.rendering
  {
    if locals == [] then Same else New(Scope(None, locals, s.rendering))
  }

  /**
   * `render(partial_name = nil, **locals, &block)`: falls back to the scope's
   * own name, raises ArgumentError when there is none, inflects a class name
   * and hands the partial name and the render scope to the rendering.
   */
  function Render<V>(s: Scope<V>, partialName: Option<PartialName>, locals: Hash<V>,
                     underscore: string -> string, demodulize: string -> string): (r: Result<PartialCall<V>, Error>)
    ensures r.Failure? <==> partialName.None? && s.name.None?
    ensures r.Failure? ==> r.error == ArgumentError(MissingPartialNameMessage)
    ensures r.Success? ==> r.value.rendering == s.rendering && r.value.scope == RenderScope(s, locals)
    ensures r.Success? ==> !r.value.partial.ClassRef?
    ensures r.Success? ==> var given := if partialName.Some? then partialName.value else s.name.value;
                           r.value.partial == InflectPartialName(given, underscore, demodulize)
  {
    var fallback := if partialName.Some? then partialName else s.name;
    match fallback
    case None => Failure(ArgumentError(MissingPartialNameMessage))
    case Some(p) =>
      Success(PartialCall(s.rendering, InflectPartialName(p, underscore, demodulize), RenderScope(s, locals)))
  }

  /**
   * `scope(name = nil, **locals)`: asks the rendering for a brand-new scope.
   * The request depends on the receiver's rendering only, not on its name or
   * its locals.
   */
  function ScopeRequest<V>(s: Scope<V>, name: Option<PartialName>, locals: Hash<V>): (r: ScopeCall<V>)
    ensures r.rendering == s.rendering && r.name == name && r.locals == locals
  {
    ScopeCall(s.rendering, name, locals)
  }

  /**
   * `method_missing(name, ...)`: a local of that name wins; otherwise a
   * method the context responds to; otherwise a convenience alias; otherwise
   * the lookup fails.
   */
  function MethodMissing<V>(s: Scope<V>, m: Name): (r: Lookup<V>)
    ensures r.Local? <==> HasKey(s.locals, m)
    ensures r.Local? ==> Get(s.locals, m) == Some(r.value)
    ensures r.ForwardContext? <==> !HasKey(s.locals, m) && m in ContextOf(s).methods
    ensures r.ForwardContext? ==> r.context == ContextOf(s)
    ensures r.Alias? <==> !HasKey(s.locals, m) && m !in ContextOf(s).methods && m in ConvenienceMethods
    ensures r.Alias? ==> r.accessor == "_" + m
  {
    match Get(s.locals, m)
    case Some(v) => Local(v)
    case None =>
      if m in s.rendering.context.methods then ForwardContext(s.rendering.context)
      else if m in ConvenienceMethods then Alias("_" + m)
      else NoMethod
  }

  /**
   * `respond_to_missing?(name)`: the same three tiers as `method_missing`;
   * the inherited `Object#respond_to_missing?` answers false.
   */
  function RespondToMissing<V>(s: Scope<V>, m: Name): (r: bool)
    ensures r <==> !MethodMissing(s, m).NoMethod?
  {
    HasKey(s.locals, m) || m in s.rendering.context.methods || m in ConvenienceMethods
  }

  /** Scope equality is an equivalence relation, and identical scopes are equal. */
  lemma EqualIsEquivalence<V>(s1: Scope<V>, s2: Scope<V>, s3: Scope<V>)
    ensures Equal(s1, s1)
    ensures Equal(s1, s2) ==> Equal(s2, s1)
    ensures Equal(s1, s2) && Equal(s2, s3) ==> Equal(s1, s3)
  {
  }

  /**
   * Locals are compared with `Hash#==`, so two scopes whose locals differ
   * only in insertion order are equal although their entry lists differ.
   */
  lemma ReorderedLocalsAreEqual(r: Rendering)
    ensures var s1 := Scope(None, [("user", 1), ("admin", 2)], r);
            var s2 := Scope(None, [("admin", 2), ("user", 1)], r);
            s1 != s2 && Equal(s1, s2)
  {
  }

  /**
   * Equal scopes answer every lookup, every capability query and every
   * re-scoping alike.
   */
  lemma EqualScopesResolveAlike<V>(s1: Scope<V>, s2: Scope<V>, m: Name, locals: Hash<V>)
    requires Equal(s1, s2)
    ensures MethodMissing(s1, m) == MethodMissing(s2, m)
    ensures RespondToMissing(s1, m) == RespondToMissing(s2, m)
    ensures Format(s1) == Format(s2) && ContextOf(s1) == ContextOf(s2)
    ensures Equal(Resolve(RenderScope(s1, locals), s1), Resolve(RenderScope(s2, locals), s2))
  {
  }

  /**
   * Adding a local `k` makes `k` resolve to that local, whatever the context
   * or the aliases offer, and leaves every other name resolving as before.
   */
  lemma AddedLocalShadows<V>(s: Scope<V>, k: Name, v: V, m: Name)
    ensures MethodMissing(s.(locals := Put(s.locals, k, v)), m)
         == if m == k then Local(v) else MethodMissing(s, m)
  {
    GetAfterPut(s.locals, k, v, m);
  }

  /**
   * Inside a partial rendered with locals, only those locals are visible:
   * a name resolves as in an unnamed scope of the same rendering that holds
   * just those locals, so the outer scope's locals are gone.
   */
  lemma RenderScopeHidesOuterLocals<V>(s: Scope<V>, locals: Hash<V>, m: Name)
    requires locals != []
    ensures var inner := Resolve(RenderScope(s, locals), s);
            MethodMissing(inner, m)
              == if HasKey(locals, m) then Local(Get(locals, m).value)
                 else MethodMissing(Scope(None, [], s.rendering), m)
  {
  }

  /** Whatever `render` is given, the partial sees the same format and context. */
  lemma RenderScopeKeepsRendering<V>(s: Scope<V>, locals: Hash<V>)
    ensures Format(Resolve(RenderScope(s, locals), s)) == Format(s)
    ensures ContextOf(Resolve(RenderScope(s, locals), s)) == ContextOf(s)
  {
  }

  /**
   * A convenience alias applies only while no local and no context method
   * takes its name: a local named `context` hides the `_context` alias.
   */
  lemma LocalHidesConvenienceAlias<V>(s: Scope<V>, v: V)
    requires !HasKey(s.locals, "context") && "context" !in ContextOf(s).methods
    ensures MethodMissing(s, "context") == Alias("_context")
    ensures MethodMissing(s.(locals := Put(s.locals, "context", v)), "context") == Local(v)
  {
    AddedLocalShadows(s, "context", v, "context");
  }
}
