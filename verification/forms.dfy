/** What every document's form state shares: merging one field into a record, clearing one
    field's error, required-field validation, and the input events the hooks receive. */
module Forms {
  import opened Js

  /** A map from field name to error message (`Record<string, string>`). */
  type Errors = map<string, string>

  /** A change event's `target`: `name`, `value`, `type` and, when present, `checked`. */
  datatype InputEvent = InputEvent(name: string, value: Value, kind: string, checked: Option<bool>)

  /** `{...prev, [name]: v}`: exactly one field changes. */
  function SetField(f: Fields, name: string, v: Value): (g: Fields)
    ensures g.Keys == f.Keys + {name}
    ensures g[name] == v
    ensures forall k :: k in f && k != name ==> g[k] == f[k]
  {
    f[name := v]
  }

  /** `if (formErrors[name]) delete errors[name]`: a field's error is dropped when its message
      is truthy; every other error stays. */
  function ClearError(errs: Errors, name: string): (e: Errors)
    ensures name in e ==> name in errs && errs[name] == "" && e[name] == ""
    ensures forall k :: k != name ==> (k in e <==> k in errs)
    ensures forall k :: k in e && k != name ==> e[k] == errs[k]
  {
    if name in errs && errs[name] != "" then errs - {name} else errs
  }

  /** One required-field check: `if (!data[field]) errors[field] = message`. */
  datatype Rule = Rule(field: string, message: string)

  /** The message of the first rule for `k`, if any. */
  function RuleFor(rules: seq<Rule>, k: string): (m: Option<string>)
    ensures m.None? <==> forall i :: 0 <= i < |rules| ==> rules[i].field != k
  {
    if rules == [] then None
    else if rules[0].field == k then Some(rules[0].message)
    else RuleFor(rules[1..], k)
  }

  /** Runs the required-field checks in order; a falsy field gets its rule's message. */
  function RequiredErrors(f: Fields, rules: seq<Rule>): (e: Errors)
    ensures forall k :: k in e <==> RuleFor(rules, k).Some? && !Truthy(Get(f, k))
    ensures forall k :: k in e ==> e[k] == RuleFor(rules, k).value
  {
    if rules == [] then map[]
    else
      var rest := RequiredErrors(f, rules[1..]);
      if !Truthy(Get(f, rules[0].field)) then rest[rules[0].field := rules[0].message] else rest
  }

  /** The checks of a list of fields that all report the same message, in the list's order
      (the `requiredFields.forEach` of the admission letter and the ten identical checks of the
      certificate). */
  function UniformRules(fields: seq<string>, message: string): (rs: seq<Rule>)
    ensures |rs| == |fields|
    ensures forall i :: 0 <= i < |rs| ==> rs[i] == Rule(fields[i], message)
  {
    if fields == [] then [] else [Rule(fields[0], message)] + UniformRules(fields[1..], message)
  }

  /** A field has a check among uniform rules exactly when it is listed, and then its message
      is the shared one. */
  lemma {:induction false} UniformRuleFor(fields: seq<string>, message: string, k: string)
    ensures RuleFor(UniformRules(fields, message), k) == if k in fields then Some(message) else None
  {
    if fields != [] {
      UniformRuleFor(fields[1..], message, k);
      assert k in fields <==> k == fields[0] || k in fields[1..] by {
        assert fields == [fields[0]] + fields[1..];
      }
      assert UniformRules(fields, message)[1..] == UniformRules(fields[1..], message);
    }
  }

  /** Required-field validation with one message: a field is reported exactly when it is listed
      and falsy, and always with that message. */
  function UniformErrors(f: Fields, fields: seq<string>, message: string): (e: Errors)
    ensures forall k :: k in e <==> k in fields && !Truthy(Get(f, k))
    ensures forall k :: k in e ==> e[k] == message
  {
    forall k ensures RuleFor(UniformRules(fields, message), k) == if k in fields then Some(message) else None {
      UniformRuleFor(fields, message, k);
    }
    RequiredErrors(f, UniformRules(fields, message))
  }

  /** Merging one field changes at most that field's uniform error: it is reported exactly when
      the field is listed and the new value falsy, and every other field keeps its report. */
  lemma UniformErrorsAfterSet(f: Fields, fields: seq<string>, message: string, name: string, v: Value)
    ensures forall k :: k != name ==>
              (k in UniformErrors(SetField(f, name, v), fields, message) <==> k in UniformErrors(f, fields, message))
    ensures name in UniformErrors(SetField(f, name, v), fields, message) <==> name in fields && !Truthy(v)
  {
    var g := SetField(f, name, v);
    forall k | k != name ensures Get(g, k) == Get(f, k) {
    }
  }

  /** After one field changes, every other field keeps its error, and the changed field has one
      exactly when a rule names it and the new value is falsy. */
  lemma RequiredErrorsAfterSet(f: Fields, rules: seq<Rule>, name: string, v: Value)
    ensures forall k :: k != name ==>
              (k in RequiredErrors(SetField(f, name, v), rules) <==> k in RequiredErrors(f, rules))
    ensures name in RequiredErrors(SetField(f, name, v), rules) <==> RuleFor(rules, name).Some? && !Truthy(v)
  {
    var g := SetField(f, name, v);
    forall k | k != name ensures Get(g, k) == Get(f, k) {
    }
  }

  /** Clearing the edited field's error from the errors of the last validation leaves a subset
      of the new record's errors, and exactly them when the new value is truthy. */
  lemma ClearedErrorsAfterSet(f: Fields, fields: seq<string>, message: string, name: string, v: Value)
    requires message != ""
    ensures ClearError(UniformErrors(f, fields, message), name).Keys
            <= UniformErrors(SetField(f, name, v), fields, message).Keys
    ensures Truthy(v) ==>
              ClearError(UniformErrors(f, fields, message), name) == UniformErrors(SetField(f, name, v), fields, message)
  {
    var e := ClearError(UniformErrors(f, fields, message), name);
    var w := UniformErrors(SetField(f, name, v), fields, message);
    UniformErrorsAfterSet(f, fields, message, name, v);
    assert name !in e;
    if Truthy(v) {
      assert e.Keys == w.Keys;
    }
  }

  /** Every rule names a different field. */
  predicate DistinctFields(rules: seq<Rule>)
  {
    forall i, j :: 0 <= i < j < |rules| ==> rules[i].field != rules[j].field
  }
}
