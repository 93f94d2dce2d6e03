/**
 * `Dry::View::ValuePart`: a part that wraps an ordered data hash. Its wrapped
 * value is the hash's first value; `to_s`, `[]` and `each` go to that value;
 * a missing method renders a template of that name, else reads a data key,
 * else goes to the wrapped value. `_with` re-scopes the part with more data
 * and hands back the receiver itself when the data would not change.
 */
module ViewValuePart {
  import opened Wrappers
  import opened OrderedHash

  /** The renderer a part belongs to, compared by identity. */
  datatype Renderer = Renderer(id: nat)

  /** A value part: its renderer and its data, in insertion order. */
  datatype ValuePart<V> = ValuePart(renderer: Renderer, data: Hash<V>)

  /** What a missing method of a part does. */
  datatype PartLookup<V> =
    | RenderTemplate(path: string) // render the template found under that name
    | Data(value: V)               // the data value stored under that key
    | ForwardValue                 // the call is sent on to the wrapped value
    | NoMethod                     // `super`: the inherited method_missing

  /** The exception a delegation raises when the wrapped value lacks the method. */
  datatype Error = NoMethodError(missing: Name)

  /**
   * `_value`, set in `initialize` as `data.values[0]`: the value stored under
   * the first key in insertion order, nil for empty data.
   */
  function Value<V>(p: ValuePart<V>): (r: Option<V>)
    ensures r.None? <==> Keys(p.data) == []
    ensures r.Some? ==> Get(p.data, Keys(p.data)[0]) == r
  {
    if p.data == [] then None else Some(p.data[0].1)
  }

  /** Dry::Equalizer over `renderer`, `_data` (compared with `Hash#==`) and `_value`. */
  predicate Equal<V(==)>(p1: ValuePart<V>, p2: ValuePart<V>)
    ensures Equal(p1, p2) <==>
              p1.renderer == p2.renderer && SameLookups(p1.data, p2.data) && Value(p1) == Value(p2)
  {
    HashEqIffSameLookups(p1.data, p2.data);
    p1.renderer == p2.renderer && HashEq(p1.data, p2.data) && Value(p1) == Value(p2)
  }

  /** `to_s`: the wrapped value's string form; `nil.to_s` is the empty string. */
  function ToS<V>(p: ValuePart<V>, show: V -> string): (s: string)
    ensures Value(p).None? ==> s == ""
    ensures Value(p).Some? ==> s == show(Value(p).value)
  {
    match Value(p)
    case None => ""
    case Some(v) => show(v)
  }

  /**
   * `[](key)`: indexes the wrapped value; `index` answers None when the value
   * has no `[]`, as nil has none.
   */
  function Index<V, K, R>(p: ValuePart<V>, key: K, index: (V, K) -> Option<R>): (r: Result<R, Error>)
    ensures r.Success? <==> Value(p).Some? && index(Value(p).value, key).Some?
    ensures r.Success? ==> r.value == index(Value(p).value, key).value
    ensures r.Failure? ==> r.error == NoMethodError("[]")
  {
    match Value(p)
    case None => Failure(NoMethodError("[]"))
    case Some(v) =>
      match index(v, key)
      case None => Failure(NoMethodError("[]"))
      case Some(x) => Success(x)
  }

  /**
   * `each(&block)`: yields the wrapped value's elements, in its own order;
   * `elements` answers None when the value has no `each`, as nil has none.
   */
  function Each<V, E>(p: ValuePart<V>, elements: V -> Option<seq<E>>): (r: Result<seq<E>, Error>)
    ensures r.Success? <==> Value(p).Some? && elements(Value(p).value).Some?
    ensures r.Success? ==> r.value == elements(Value(p).value).value
    ensures r.Failure? ==> r.error == NoMethodError("each")
  {
    match Value(p)
    case None => Failure(NoMethodError("each"))
    case Some(v) =>
      match elements(v)
      case None => Failure(NoMethodError("each"))
      case Some(xs) => Success(xs)
  }

  /**
   * `respond_to_missing?(meth)`: only data keys are advertised, besides what
   * the inherited `respond_to_missing?` answers (`inherited`).
   */
  function RespondToMissing<V>(p: ValuePart<V>, m: Name, inherited: bool): (r: bool)
    ensures !inherited ==> (r <==> HasKey(p.data, m))
    ensures inherited ==> r
  {
    HasKey(p.data, m) || inherited
  }

  /**
   * `_with(additional_scope)`: merges the extra data in; when the merged hash
   * is `==` to the current data the receiver itself comes back, otherwise a
   * new part over the merged data with the same renderer.
   */
  function With<V(==)>(p: ValuePart<V>, extra: Hash<V>): (r: Rescoped<ValuePart<V>>)
    ensures r.Same? <==> Merge(p.data, extra) == p.data
    ensures r.Same? <==> Absorbs(p.data, extra)
    ensures extra == [] ==> r.Same?
    ensures r.New? ==> r.value.renderer == p.renderer && r.value.data == Merge(p.data, extra)
  {
    MergeUnchangedIff(p.data, extra);
    var merged := Merge(p.data, extra);
    if !HashEq(merged, p.data) then New(ValuePart(p.renderer, merged)) else Same
  }

  /**
   * `method_missing(meth, ...)`: a template named `meth` wins, then a data
   * key, then a method of the wrapped value; otherwise the lookup fails.
   * `templates` is the part's `template?` (a path per template name) and
   * `valueMethods` what the wrapped value responds to.
   */
  function MethodMissing<V>(p: ValuePart<V>, m: Name, templates: map<Name, string>, valueMethods: set<Name>): (r: PartLookup<V>)
    ensures r.RenderTemplate? <==> m in templates
    ensures r.RenderTemplate? ==> r.path == templates[m]
    ensures r.Data? <==> m !in templates && HasKey(p.data, m)
    ensures r.Data? ==> Get(p.data, m) == Some(r.value)
    ensures r.ForwardValue? <==> m !in templates && !HasKey(p.data, m) && m in valueMethods
  {
    if m in templates then RenderTemplate(templates[m])
    else match Get(p.data, m)
      case Some(v) => Data(v)
      case None => if m in valueMethods then ForwardValue else NoMethod
  }

  /**
   * Capability probing and dispatch agree on what is advertised: a name the
   * part responds to (a data key) always dispatches to a template or to the
   * data value, never to the wrapped value and never to a failure.
   */
  lemma AdvertisedNamesDispatch<V>(p: ValuePart<V>, m: Name, templates: map<Name, string>, valueMethods: set<Name>)
    requires RespondToMissing(p, m, false)
    ensures var r := MethodMissing(p, m, templates, valueMethods);
            r.RenderTemplate? || (r.Data? && Get(p.data, m) == Some(r.value))
  {
  }

  /**
   * Templates and the wrapped value's methods are fallbacks only: a name
   * they serve dispatches successfully without being advertised.
   */
  lemma FallbacksNotAdvertised<V>(p: ValuePart<V>, m: Name, templates: map<Name, string>, valueMethods: set<Name>)
    requires !HasKey(p.data, m) && (m in templates || m in valueMethods)
    ensures !RespondToMissing(p, m, false)
    ensures !MethodMissing(p, m, templates, valueMethods).NoMethod?
  {
  }

  /**
   * The wrapped value after `_with`: the merged hash keeps the first key in
   * first place, so the value changes only when the extra data overrides
   * that key; a part over empty data takes the extra data's first value.
   */
  lemma WithWrappedValue<V>(p: ValuePart<V>, extra: Hash<V>)
    ensures var q := Resolve(With(p, extra), p);
            q.renderer == p.renderer &&
            Value(q) == if p.data == [] then Value(ValuePart(p.renderer, extra))
                        else if HasKey(extra, p.data[0].0) then Get(extra, p.data[0].0)
                        else Value(p)
  {
    var q := Resolve(With(p, extra), p);
    if p.data == [] {
      var empty: Hash<V> := [];
      assert DisjointKeys(empty, extra);
      MergeFresh(empty, extra);
      assert q.data == extra;
    } else {
      var k0 := p.data[0].0;
      GetAfterMerge(p.data, extra, k0);
      assert Keys(p.data)[0] == k0;
      assert Keys(q.data)[0] == k0 by {
        assert Keys(p.data) <= Keys(Merge(p.data, extra));
      }
      assert Value(q) == Get(q.data, k0);
    }
  }

  /**
   * Equal parts dispatch every name alike, advertise the same names and
   * agree on whether `_with` hands back the receiver.
   */
  lemma EqualPartsResolveAlike<V>(p1: ValuePart<V>, p2: ValuePart<V>, m: Name, templates: map<Name, string>,
                                  valueMethods: set<Name>, inherited: bool, extra: Hash<V>)
    requires Equal(p1, p2)
    ensures MethodMissing(p1, m, templates, valueMethods) == MethodMissing(p2, m, templates, valueMethods)
    ensures RespondToMissing(p1, m, inherited) == RespondToMissing(p2, m, inherited)
    ensures With(p1, extra).Same? == With(p2, extra).Same?
  {
    HashEqIffSameLookups(p1.data, p2.data);
    assert Get(p1.data, m) == Get(p2.data, m);
    assert Absorbs(p1.data, extra) == Absorbs(p2.data, extra) by {
      forall k ensures Get(p1.data, k) == Get(p2.data, k) {
      }
    }
  }

  /**
   * The equalizer compares `_value` as well as `_data`: the same entries in
   * another order make a different first value, so the parts differ.
   */
  lemma ReorderedDataNotEqual(r: Renderer)
    ensures var p1 := ValuePart(r, [("user", 1), ("admin", 2)]);
            var p2 := ValuePart(r, [("admin", 2), ("user", 1)]);
            HashEq(p1.data, p2.data) && !Equal(p1, p2)
  {
  }

  /** A part built over `{name: "Jane"}` wraps "Jane" and prints as "Jane". */
  lemma SingleEntryPart(r: Renderer)
    ensures Value(ValuePart(r, [("name", "Jane")])) == Some("Jane")
    ensures ToS(ValuePart(r, [("name", "Jane")]), (s: string) => s) == "Jane"
  {
  }
}
