# Name resolution in hanami-view's Scope and ValuePart

This project models how a name used inside a hanami-view template is
resolved, and how the template's evaluation objects are re-scoped:

- `Hanami::View::Scope` holds an optional name, its locals and the in-flight
  rendering. `render` picks the partial name and builds the scope the
  partial is rendered with. A missing method resolves to a local, then to a
  method of the context object, then to a convenience alias (`format`,
  `context`, `locals`), and otherwise fails. `respond_to_missing?` answers
  with the same three tiers.
- `Dry::View::ValuePart` wraps an ordered data hash. Its wrapped value is
  the hash's first value. `to_s`, `[]` and `each` go to that value. `_with`
  merges extra data into a new part, or hands back the receiver when nothing
  changes. A missing method renders a template of that name, then reads a
  data key, then goes to the wrapped value. `respond_to_missing?`
  advertises data keys only.

Both classes are immutable value objects, so the model is purely functional:
datatypes, functions and lemmas.

- `wrappers.dfy`: `Option` (nil), `Result` (a raised exception), and
  `Rescoped` (`Same` is "returns `self`", `New` is a freshly built object).
- `ordered_hash.dfy`: Ruby's insertion-ordered `Hash`. It is a list of
  entries with unique keys. `Put` is `Hash#[]=`, `Merge` is `Hash#merge`,
  and `HashEq` is the order-insensitive `Hash#==`.
- `scope.dfy`: module `ViewScope`, for `lib/hanami/view/scope.rb`.
- `value_part.dfy`: module `ViewValuePart`, for `lib/dry/view/value_part.rb`.

Collaborators the model cannot see are parameters:
- The context object is a `Context` with the set of methods it responds to.
- The rendering is a `Rendering` with its format and context.
- The inflector's `underscore` and `demodulize` are function parameters of
  `Render`. They stand for `_rendering.inflector`.
- `Part#template?` is a map from template names to paths.
- What the wrapped value responds to is a set of names.
- The answer of the inherited `respond_to_missing?` above `ValuePart` is a
  boolean.
- The wrapped value's own `to_s`, `[]` and `each` are function parameters.

Facts about the code that shape the model:
- `_render_scope` builds its scope from the given locals alone. The
  receiver's locals are not merged in, and the receiver's name is dropped
  (lib/hanami/view/scope.rb:175-179; the code marks the name with a FIXME at
  line 176).
- A ValuePart over empty data is allowed. Its `_value` is
  `data.values[0]`, which is nil there (lib/dry/view/value_part.rb:14). The
  model writes that absence as `None`. A nil stored as the first entry's
  value is `Some` of that value.
- Scope equality compares locals with `Hash#==`, so insertion order does not
  matter (`ReorderedLocalsAreEqual`). ValuePart equality also compares
  `_value`, so reordered data can make two parts unequal
  (`ReorderedDataNotEqual`).

## Model

| member | source | states |
|---|---|---|
| `OrderedHash.MergeKeys` | lib/dry/view/value_part.rb:36 | The keys of `a.merge(b)` are the receiver's keys in their places, followed by the keys only `b` has, in `b`'s order. This holds whether or not `b` also overrides keys of `a`. |
| `OrderedHash.GetAfterMerge` | lib/dry/view/value_part.rb:36 | In the merged hash, a key of the argument has the argument's value. Every other key keeps the receiver's value, or stays absent. |
| `OrderedHash.HashEqIffSameLookups` | lib/dry/view/value_part.rb:38 | `Hash#==` holds exactly when every key looks up the same value, or nil, in both hashes. |
| `OrderedHash.MergeUnchangedIff` | lib/dry/view/value_part.rb:36-38 | `a.merge(b) == a` holds exactly when the merge leaves the entry list itself untouched. That is exactly when every entry of `b` is already in `a` with an equal value. Values are equal up to Ruby's `==` of the values. |
| `OrderedHash.MergeFresh` | lib/dry/view/value_part.rb:36 | Merging a hash that shares no key with the receiver appends its entries in their order. |
| `ViewScope.Format` | lib/hanami/view/scope.rb:124-126 | `_format` is the rendering's format, unchanged. |
| `ViewScope.ContextOf` | lib/hanami/view/scope.rb:139-141 | `_context` is the rendering's context object, unchanged. |
| `ViewScope.InflectPartialName` | lib/hanami/view/scope.rb:94-96 | A class name becomes `underscore(demodulize(name))`. A symbol or a string passes unchanged. The result is never a class. |
| `ViewScope.RenderScope` | lib/hanami/view/scope.rb:171-181 | With no locals the result is the receiver itself (`Same`). Otherwise it is a new scope whose locals are exactly the given ones, whose name is nil, and whose rendering is the receiver's. |
| `ViewScope.Render` | lib/hanami/view/scope.rb:87-99 | Raises ArgumentError with the message `render` raises exactly when no partial name is given and the scope is unnamed. Otherwise the given name, or else the scope's name, is inflected and sent to the scope's own rendering with the render scope. |
| `ViewScope.ScopeRequest` | lib/hanami/view/scope.rb:109-111 | `scope` asks the receiver's rendering for a scope with exactly the given name and locals. |
| `ViewScope.MethodMissing` | lib/hanami/view/scope.rb:151-161 | A local wins and yields its value, even when the context responds to the name. Otherwise the call is forwarded to the context when it responds. Otherwise a convenience alias `m` goes to the accessor `_m`. Otherwise it fails. |
| `ViewScope.RespondToMissing` | lib/hanami/view/scope.rb:164-169 | Holds exactly when `method_missing` does not fall through to `super`. |
| `ViewScope.AddedLocalShadows` | lib/hanami/view/scope.rb:151-161 | Adding a local `k` makes `k` resolve to it, whatever the context or the aliases offer. Every other name resolves as before. |
| `ViewScope.LocalHidesConvenienceAlias` | lib/hanami/view/scope.rb:151-160 | `context` resolves to the `_context` alias only when neither a local nor the context takes the name. A local named `context` hides the alias. |
| `ViewScope.RenderScopeHidesOuterLocals` | lib/hanami/view/scope.rb:171-181 | Inside a partial rendered with locals, a name resolves as in an unnamed scope holding only those locals. The outer locals are invisible. |
| `ViewScope.RenderScopeKeepsRendering` | lib/hanami/view/scope.rb:174-179 | The render scope has the receiver's format and context. |
| `ViewScope.Equal` | lib/hanami/view/scope.rb:23 | Two scopes are equal exactly when their names are equal, their locals are equal under `Hash#==` (every key looks up the same value), and their renderings are equal. |
| `ViewScope.EqualIsEquivalence` | lib/hanami/view/scope.rb:23 | Equalizer equality over name, locals and rendering is reflexive, symmetric and transitive. |
| `ViewScope.ReorderedLocalsAreEqual` | lib/hanami/view/scope.rb:23 | Two scopes whose locals differ only in order are distinct values, yet they are equal. |
| `ViewScope.EqualScopesResolveAlike` | lib/hanami/view/scope.rb:23 | Equal scopes resolve every name alike and answer `respond_to_missing?` alike. They have the same format and context, and they give equal render scopes. |
| `ViewValuePart.Value` | lib/dry/view/value_part.rb:10-15 | `_value` is `None` exactly for empty data. Otherwise it is `Some` of the value stored under the first key in insertion order, and that value may itself be nil. |
| `ViewValuePart.ToS` | lib/dry/view/value_part.rb:17-19 | `to_s` is the wrapped value's string form, and `""` for a nil value. |
| `ViewValuePart.Index` | lib/dry/view/value_part.rb:21-23 | `[](key)` is the wrapped value's `[](key)`. It raises NoMethodError for `[]` when the value has no `[]`, nil included. |
| `ViewValuePart.Each` | lib/dry/view/value_part.rb:25-27 | `each` yields exactly the wrapped value's elements in its order. It raises NoMethodError for `each` when the value has none, nil included. |
| `ViewValuePart.RespondToMissing` | lib/dry/view/value_part.rb:29-31 | Apart from the inherited answer, it is true exactly for data keys. |
| `ViewValuePart.With` | lib/dry/view/value_part.rb:35-43 | Returns the receiver exactly when the merge leaves the data unchanged, which is when every extra entry is already present with an equal value. Empty extra data always gives the receiver. Otherwise it returns a new part with the same renderer over the merged data, where extra entries override. |
| `ViewValuePart.WithWrappedValue` | lib/dry/view/value_part.rb:35-43 | After `_with`, the wrapped value changes only when the extra data overrides the first key. A part over empty data takes the extra data's first value. |
| `ViewValuePart.MethodMissing` | lib/dry/view/value_part.rb:45-57 | A template of that name wins over a data key of the same name. A data key wins over a method of the wrapped value. It fails only when all three tiers miss. |
| `ViewValuePart.AdvertisedNamesDispatch` | lib/dry/view/value_part.rb:45-57 | When the inherited `respond_to_missing?` answers false, a name that `respond_to_missing?` advertises always dispatches to a template or to its data value, never to a failure. |
| `ViewValuePart.FallbacksNotAdvertised` | lib/dry/view/value_part.rb:29-31 | When the inherited `respond_to_missing?` answers false, a name served only by a template or by the wrapped value dispatches successfully but is not advertised. |
| `ViewValuePart.Equal` | lib/dry/view/value_part.rb:6 | Two parts are equal exactly when their renderers are equal, their data are equal under `Hash#==` (every key looks up the same value), and their `_value`s are equal. |
| `ViewValuePart.EqualPartsResolveAlike` | lib/dry/view/value_part.rb:6 | Equal parts dispatch every name alike and advertise the same names. `_with` returns the receiver for one exactly when it does for the other. |
| `ViewValuePart.ReorderedDataNotEqual` | lib/dry/view/value_part.rb:6 | Equality compares `_value` too. The same entries in another order give a different first value, so the parts are unequal although their data hashes are `==`. |
| `ViewValuePart.SingleEntryPart` | lib/dry/view/value_part.rb:10-19 | A part built over `{name: "Jane"}` wraps `"Jane"`, and its `to_s` is `"Jane"`. |

## Left out

- lib/hanami/view/erb/engine.rb is left out. It only declares the ERB compilation stages in order: parser, block filter, trimming filter, escapable filter (HTML-safe), string splitter, static analyzer, multi-flattener, static merger, and the array-buffer generator. The stages themselves belong to the Temple library and to files that are not part of this model.
- benchmarks/profile_view.rb is a profiling script with no logic of the core.
- The Rendering collaborator is opaque. Its `partial` output and the scope its `scope` builds are not modelled. `Render` and `ScopeRequest` return the call that would be made instead.
- The default `RenderingMissing` rendering of `Scope#initialize` is not modelled. Its class is not part of this model. A scope is always built with an explicit rendering.
- The `Part` base class is opaque: `template?`, `render`, `build`, `renderer`, and its own `method_missing`/`respond_to_missing?`. A lookup that falls through to `super` is the `NoMethod` outcome. `_with` assumes that `build(renderer:, value:)` makes a ValuePart over that data.
- Ruby's dispatch mechanics are not modelled: argument and block forwarding, `ruby2_keywords`, `public_send`/`__send__`, and an alias called with arguments. The model gives the lookup decision, not the forwarded call's result.
- Ruby `false` as a partial name is not modelled. It behaves like nil under `||=`.
- The block given to `render` is forwarded unchanged to the rendering and is not modelled.
- `ViewScope.RenderScope` does not model the receiver's class. `_render_scope` builds `self.class.new`, so a custom Scope subclass carries over into the partial; the model has one Scope type.
- `ViewValuePart.With` does not model the receiver's class. `_with` builds through `self.class.build`; the model has one ValuePart type.
- `ViewScope.EqualIsEquivalence` holds for the model, which has no classes. Dry::Equalizer's `==` also checks `other.is_a?(self.class)`, so in Ruby `==` between a Scope and an instance of a Scope subclass is not symmetric. That class check is not modelled, in `ViewScope.Equal` nor in `ViewValuePart.Equal`.
- `ViewValuePart.With` compares data values with the model's equality on values, which stands for Ruby's `==`. Values that are `==` count as one value, so `{a: 1}.merge({a: 1.0})` is modelled as leaving the data unchanged and returning the receiver, as Ruby does. The model does not record that Ruby's merged hash would then hold `1.0` rather than `1`.
