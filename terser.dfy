/**
 * `normalizeMinifyOptions` of src/shared/terser.js: rewrites the minify
 * options read from package.json into the shape terser expects, in place.
 *
 * The options object is a class whose fields are the four keys the
 * normaliser reads. `mangle` and `mangle.properties` are objects the code
 * mutates through aliases (`mangle`, `properties`); here they are values
 * held in two locals, the local `mangle` value rewritten after each change
 * of `properties` and stored into `this.mangle` when the method returns,
 * which is the same thing because `properties` always refers to what
 * `mangle.properties` holds and nothing else reads the options meanwhile.
 *
 * Writing a property of a non-object is dropped. That is sloppy-mode
 * JavaScript for primitives; arrays, which do take properties in
 * JavaScript, are treated like primitives here (the value model has no
 * properties on arrays).
 */
module Terser {
  import opened Wrappers
  import opened JsValues

  /** `v[key] = x`: objects take the property; primitives, and here also arrays, drop the write. */
  function SetProp(v: Value, key: string, x: Value): (r: Value)
    ensures v.Obj? ==> r == Obj(v.fields[key := x])
    ensures !v.Obj? ==> r == v
  {
    if v.Obj? then Obj(v.fields[key := x]) else v
  }

  /** A second write of the same key replaces the first. */
  lemma SetPropTwice(v: Value, key: string, x: Value, y: Value)
    ensures SetProp(SetProp(v, key, x), key, y) == SetProp(v, key, y)
  {
    if v.Obj? {
      assert v.fields[key := x][key := y] == v.fields[key := y];
    }
  }

  /**
   * `Object.assign(target, source)`: a TypeError for `null`/`undefined`; any
   * other non-object target (an array included) is replaced by a fresh object
   * holding the source's keys.
   */
  function AssignOnto(target: Value, source: Value): Result<Value> {
    if target.Undefined? || target.Null? then Err(TypeError("Cannot convert undefined or null to object"))
    else if target.Obj? then Ok(Obj(Assign(target.fields, source)))
    else Ok(Obj(Assign(map[], source)))
  }

  /** `new RegExp(v)` for a string or a RegExp. */
  function ToRegExp(v: Value): Value {
    if v.Str? then RegExp(v.s) else v
  }

  /** `[].concat(v || [])`: an array is copied one level deep, a falsy value gives `[]`, anything else is wrapped. */
  function ConcatReserved(v: Value): (r: Value)
    ensures r.Arr?
    ensures v.Arr? ==> r.items == v.items
    ensures !Truthy(v) ==> r.items == []
    ensures Truthy(v) && !v.Arr? ==> r.items == [v]
  {
    if !Truthy(v) then Arr([]) else if v.Arr? then Arr(v.items) else Arr([v])
  }

  /** The outcome of the normaliser: success or the TypeError, and the `mangle` option it leaves behind. */
  datatype Outcome = Outcome(result: Result<()>, mangle: Value)

  /** Lines 12-16: a top-level `properties` overrides `mangle.properties`; gives the new `mangle` and `properties`. */
  function OverrideStep(m: Value, p: Value, properties: Value): Result<(Value, Value)> {
    if properties.Null? || properties.Undefined? then Ok((m, p))
    else if !Truthy(properties) then Ok((SetProp(m, "properties", properties), properties))
    else
      match AssignOnto(p, properties)
      case Err(e) => Err(e)
      case Ok(q) => Ok((SetProp(m, "properties", q), q))
  }

  /** Lines 19-23: the legacy top-level `regex` / `reserved` fill what `properties` is missing. */
  function LegacyStep(m: Value, p: Value, regex: Value, reserved: Value): (Value, Value) {
    if Truthy(regex) || Truthy(reserved) then
      var pa := if Truthy(p) then p else Obj(map[]);
      var pb := SetProp(pa, "regex", if Truthy(Get(pa, "regex")) then Get(pa, "regex") else regex);
      var pc := SetProp(pb, "reserved", if Truthy(Get(pb, "reserved")) then Get(pb, "reserved") else reserved);
      (SetProp(m, "properties", pc), pc)
    else (m, p)
  }

  /** Lines 25-28: a present `regex` is compiled and `reserved` becomes an array. */
  function CompileStep(m: Value, p: Value): Value {
    if Truthy(p) then
      var pd := if Truthy(Get(p, "regex")) then SetProp(p, "regex", ToRegExp(Get(p, "regex"))) else p;
      SetProp(m, "properties", SetProp(pd, "reserved", ConcatReserved(Get(pd, "reserved"))))
    else m
  }

  /** What `normalizeMinifyOptions` does to `mangle`, given the four options it reads. */
  function Normalized(mangle: Value, properties: Value, regex: Value, reserved: Value): Outcome {
    if mangle.Bool? then Outcome(Ok(()), mangle)
    else
      var m0 := if Truthy(mangle) then mangle else Obj(map[]);
      match OverrideStep(m0, Get(m0, "properties"), properties)
      case Err(e) => Outcome(Err(e), m0)
      case Ok((m1, p1)) =>
        var (m2, p2) := LegacyStep(m1, p1, regex, reserved);
        Outcome(Ok(()), CompileStep(m2, p2))
  }

  /** A minify options object; only `mangle` is ever written. */
  class MinifyOptions {
    var mangle: Value
    var properties: Value
    var regex: Value
    var reserved: Value

    constructor (mangle: Value, properties: Value, regex: Value, reserved: Value)
      ensures this.mangle == mangle && this.properties == properties
      ensures this.regex == regex && this.reserved == reserved
    {
      this.mangle := mangle;
      this.properties := properties;
      this.regex := regex;
      this.reserved := reserved;
    }

    /** `normalizeMinifyOptions(this)`: updates `mangle` in place; the TypeError of `Object.assign` is an `Err`. */
    method Normalize() returns (r: Result<()>)
      modifies this
      ensures Outcome(r, mangle) == Normalized(old(mangle), properties, regex, reserved)
      ensures properties == old(properties) && regex == old(regex) && reserved == old(reserved)
    {
      if mangle.Bool? {
        return Ok(());
      }
      if !Truthy(mangle) {
        mangle := Obj(map[]);
      }
      var m, props := mangle, Get(mangle, "properties");
      ghost var m0 := m;

      if !(properties.Null? || properties.Undefined?) {
        if Truthy(properties) {
          var merged := AssignOnto(props, properties);
          if merged.Err? {
            return Err(merged.error);
          }
          props := merged.value;
        } else {
          props := properties;
        }
        m := SetProp(m, "properties", props);
      }
      assert OverrideStep(m0, Get(m0, "properties"), properties) == Ok((m, props));
      ghost var m1, p1 := m, props;

      if Truthy(regex) || Truthy(reserved) {
        if !Truthy(props) {
          props := Obj(map[]);
          m := SetProp(m, "properties", props);
        }
        ghost var pa := props;
        props := SetProp(props, "regex", if Truthy(Get(props, "regex")) then Get(props, "regex") else regex);
        props := SetProp(props, "reserved", if Truthy(Get(props, "reserved")) then Get(props, "reserved") else reserved);
        SetPropTwice(m1, "properties", pa, props);
        m := SetProp(m, "properties", props);
      }
      assert LegacyStep(m1, p1, regex, reserved) == (m, props);
      ghost var m2, p2 := m, props;

      if Truthy(props) {
        if Truthy(Get(props, "regex")) {
          props := SetProp(props, "regex", ToRegExp(Get(props, "regex")));
        }
        props := SetProp(props, "reserved", ConcatReserved(Get(props, "reserved")));
        m := SetProp(m, "properties", props);
      }
      assert m == CompileStep(m2, p2);
      mangle := m;
      r := Ok(());
    }
  }

  // ---------------------------------------------------------------------------
  // What the normaliser promises

  /** A boolean `mangle` switches normalisation off: nothing changes. */
  lemma BooleanMangleUntouched(b: bool, properties: Value, regex: Value, reserved: Value)
    ensures Normalized(Bool(b), properties, regex, reserved) == Outcome(Ok(()), Bool(b))
  {
  }

  /** `m` is an object whose `properties` is `p`: the aliasing the normaliser keeps between its two locals. */
  predicate Linked(m: Value, p: Value) {
    m.Obj? && Get(m, "properties") == p
  }

  /** The override step fails exactly when a truthy `properties` meets a `null`/`undefined` target. */
  lemma OverrideFails(m: Value, p: Value, properties: Value)
    ensures OverrideStep(m, p, properties).Err? <==> Truthy(properties) && (p.Undefined? || p.Null?)
  {
  }

  /** The override step keeps `p` the `properties` of `m`. */
  lemma OverrideLinked(m: Value, p: Value, properties: Value)
    requires Linked(m, p) && OverrideStep(m, p, properties).Ok?
    ensures Linked(OverrideStep(m, p, properties).value.0, OverrideStep(m, p, properties).value.1)
  {
  }

  /** The legacy step keeps `p` the `properties` of `m`. */
  lemma LegacyLinked(m: Value, p: Value, regex: Value, reserved: Value)
    requires Linked(m, p)
    ensures Linked(LegacyStep(m, p, regex, reserved).0, LegacyStep(m, p, regex, reserved).1)
  {
    if Truthy(regex) || Truthy(reserved) {
      var pc := LegacyStep(m, p, regex, reserved).1;
      assert LegacyStep(m, p, regex, reserved).0 == SetProp(m, "properties", pc);
    }
  }

  /**
   * The compile step: an object `properties` takes `[].concat(reserved || [])`
   * as `reserved`, compiles a truthy `regex` and keeps every other key; a
   * falsy `properties` leaves `mangle` alone.
   */
  lemma CompileShape(m: Value, p: Value)
    requires Linked(m, p)
    ensures CompileStep(m, p).Obj?
    ensures !Truthy(p) ==> CompileStep(m, p) == m
    ensures var q := Get(CompileStep(m, p), "properties");
      q.Obj? ==> Get(q, "reserved").Arr? && !(Get(q, "regex").Str? && Get(q, "regex").s != "")
    ensures var q := Get(CompileStep(m, p), "properties");
      p.Obj? ==>
        q.Obj? && Get(q, "reserved") == ConcatReserved(Get(p, "reserved"))
        && Get(q, "regex") == (if Truthy(Get(p, "regex")) then ToRegExp(Get(p, "regex")) else Get(p, "regex"))
        && forall k :: k != "regex" && k != "reserved" ==> Get(q, k) == Get(p, k)
  {
    if Truthy(p) {
      var pd := if Truthy(Get(p, "regex")) then SetProp(p, "regex", ToRegExp(Get(p, "regex"))) else p;
      var q := SetProp(pd, "reserved", ConcatReserved(Get(pd, "reserved")));
      assert CompileStep(m, p) == SetProp(m, "properties", q);
      assert Get(CompileStep(m, p), "properties") == q;
      if q.Obj? {
        assert Get(q, "regex") == Get(pd, "regex");
      }
    }
  }

  /** The object `mangle` the normaliser starts from: a falsy one is replaced by `{}`. */
  function StartMangle(mangle: Value): Value {
    if Truthy(mangle) then mangle else Obj(map[])
  }

  /** `mangle` and `properties` as the compile step finds them, or `None` when the override step throws. */
  function BeforeCompile(mangle: Value, properties: Value, regex: Value, reserved: Value): Option<(Value, Value)> {
    var m0 := StartMangle(mangle);
    match OverrideStep(m0, Get(m0, "properties"), properties)
    case Err(_) => None
    case Ok((m1, p1)) => Some(LegacyStep(m1, p1, regex, reserved))
  }

  /** The normaliser is the override, legacy and compile steps in turn, on the object `mangle` it starts from. */
  lemma NormalizedSteps(mangle: Value, properties: Value, regex: Value, reserved: Value)
    requires !mangle.Bool?
    ensures var m0 := StartMangle(mangle);
      var o := Normalized(mangle, properties, regex, reserved);
      var bc := BeforeCompile(mangle, properties, regex, reserved);
      (o.result.Err? <==> OverrideStep(m0, Get(m0, "properties"), properties).Err?)
      && (o.result.Err? <==> bc.None?)
      && (o.result.Err? ==> o.mangle == m0)
      && (o.result.Ok? ==> o.mangle == CompileStep(bc.value.0, bc.value.1))
      && (m0.Obj? && o.result.Ok? ==> Linked(bc.value.0, bc.value.1))
  {
    var m0 := StartMangle(mangle);
    match OverrideStep(m0, Get(m0, "properties"), properties)
    case Err(e) =>
    case Ok((m1, p1)) =>
      if m0.Obj? {
        OverrideLinked(m0, Get(m0, "properties"), properties);
        LegacyLinked(m1, p1, regex, reserved);
      }
  }

  /** The one failure: a truthy top-level `properties` with no `mangle.properties` to assign it onto. */
  lemma NormalizedErrors(mangle: Value, properties: Value, regex: Value, reserved: Value)
    ensures var o := Normalized(mangle, properties, regex, reserved);
      o.result.Err? <==>
        !mangle.Bool? && Truthy(properties) && !Truthy(Get(StartMangle(mangle), "properties"))
        && (Get(StartMangle(mangle), "properties").Undefined? || Get(StartMangle(mangle), "properties").Null?)
  {
    if !mangle.Bool? {
      var m0 := StartMangle(mangle);
      NormalizedSteps(mangle, properties, regex, reserved);
      OverrideFails(m0, Get(m0, "properties"), properties);
    }
  }

  /** An absent or falsy `mangle` becomes an object, even when the normaliser then fails. */
  lemma MangleBecomesObject(mangle: Value, properties: Value, regex: Value, reserved: Value)
    requires !mangle.Bool? && (!Truthy(mangle) || mangle.Obj?)
    ensures Normalized(mangle, properties, regex, reserved).mangle.Obj?
  {
    NormalizedSteps(mangle, properties, regex, reserved);
    var bc := BeforeCompile(mangle, properties, regex, reserved);
    if bc.Some? {
      CompileShape(bc.value.0, bc.value.1);
    }
  }

  /** `properties: false` at the top level disables property mangling, unless legacy options re-create it. */
  lemma PropertiesFalse(mangle: Value, regex: Value, reserved: Value)
    requires !mangle.Bool? && (!Truthy(mangle) || mangle.Obj?)
    requires !Truthy(regex) && !Truthy(reserved)
    ensures var o := Normalized(mangle, Bool(false), regex, reserved);
      o.result.Ok? && Get(o.mangle, "properties") == Bool(false)
  {
  }

  /**
   * After a successful run on an object `mangle`, a truthy object
   * `mangle.properties` has as `reserved` the array `[].concat` makes of the
   * `reserved` the earlier steps left, and its `regex` is compiled when it
   * was a string.
   */
  lemma PropertiesShape(mangle: Value, properties: Value, regex: Value, reserved: Value)
    requires !mangle.Bool? && (!Truthy(mangle) || mangle.Obj?)
    ensures var o := Normalized(mangle, properties, regex, reserved);
      var p := Get(o.mangle, "properties");
      o.result.Ok? && p.Obj? ==>
        Get(p, "reserved").Arr? && !(Get(p, "regex").Str? && Get(p, "regex").s != "")
        && Get(p, "reserved") == ConcatReserved(Get(BeforeCompile(mangle, properties, regex, reserved).value.1, "reserved"))
  {
    NormalizedSteps(mangle, properties, regex, reserved);
    var bc := BeforeCompile(mangle, properties, regex, reserved);
    if bc.Some? {
      var (m2, p2) := bc.value;
      CompileShape(m2, p2);
      if !p2.Obj? && Truthy(p2) {
        var pd := if Truthy(Get(p2, "regex")) then SetProp(p2, "regex", ToRegExp(Get(p2, "regex"))) else p2;
        assert CompileStep(m2, p2) == SetProp(m2, "properties", p2);
      }
    }
  }

  /**
   * With legacy `regex` or `reserved` options, `properties` is created when
   * falsy, its own truthy `regex` and `reserved` win over the legacy ones,
   * and the result is then compiled; its other keys are kept.
   */
  lemma LegacyOptionsFillOnly(fields: map<string, Value>, regex: Value, reserved: Value)
    requires Truthy(regex) || Truthy(reserved)
    requires var p0 := Get(Obj(fields), "properties"); !Truthy(p0) || p0.Obj?
    ensures var p0 := Get(Obj(fields), "properties");
      var re := if Truthy(Get(p0, "regex")) then Get(p0, "regex") else regex;
      var rs := if Truthy(Get(p0, "reserved")) then Get(p0, "reserved") else reserved;
      var q := Get(Normalized(Obj(fields), Undefined, regex, reserved).mangle, "properties");
      q.Obj?
      && Get(q, "regex") == (if Truthy(re) then ToRegExp(re) else re)
      && Get(q, "reserved") == ConcatReserved(rs)
      && (p0.Obj? ==> forall k :: k != "regex" && k != "reserved" ==> Get(q, k) == Get(p0, k))
  {
    var m0, p0 := Obj(fields), Get(Obj(fields), "properties");
    assert OverrideStep(m0, p0, Undefined) == Ok((m0, p0));
    var (m2, p2) := LegacyStep(m0, p0, regex, reserved);
    NormalizedSteps(Obj(fields), Undefined, regex, reserved);
    assert BeforeCompile(Obj(fields), Undefined, regex, reserved) == Some((m2, p2));
    LegacyFills(m0, p0, regex, reserved);
    if p0.Obj? {
      LegacyKeepsOthers(m0, p0, regex, reserved);
    }
    CompileShape(m2, p2);
  }

  /** The legacy step fills `regex` and `reserved` of `properties` (created when falsy) where they are falsy. */
  lemma LegacyFills(m: Value, p: Value, regex: Value, reserved: Value)
    requires Truthy(regex) || Truthy(reserved)
    requires !Truthy(p) || p.Obj?
    ensures var p2 := LegacyStep(m, p, regex, reserved).1;
      p2.Obj?
      && Get(p2, "regex") == (if Truthy(Get(p, "regex")) then Get(p, "regex") else regex)
      && Get(p2, "reserved") == (if Truthy(Get(p, "reserved")) then Get(p, "reserved") else reserved)
  {
    var pa := if Truthy(p) then p else Obj(map[]);
    assert Get(pa, "regex") == Get(p, "regex") && Get(pa, "reserved") == Get(p, "reserved");
    var re := if Truthy(Get(pa, "regex")) then Get(pa, "regex") else regex;
    var pb := SetProp(pa, "regex", re);
    GetSetProp(pa, "regex", re, "reserved");
    GetSetProp(pa, "regex", re, "regex");
    var rs := if Truthy(Get(pb, "reserved")) then Get(pb, "reserved") else reserved;
    var pc := SetProp(pb, "reserved", rs);
    GetSetProp(pb, "reserved", rs, "regex");
    GetSetProp(pb, "reserved", rs, "reserved");
    assert LegacyStep(m, p, regex, reserved).1 == pc;
  }

  /** Reading a property back after writing it to an object. */
  lemma GetSetProp(v: Value, key: string, x: Value, k: string)
    requires v.Obj?
    ensures SetProp(v, key, x).Obj?
    ensures Get(SetProp(v, key, x), k) == if k == key then x else Get(v, k)
  {
  }

  /** The legacy step touches only `regex` and `reserved` of an object `properties`. */
  lemma LegacyKeepsOthers(m: Value, p: Value, regex: Value, reserved: Value)
    requires p.Obj?
    ensures var p2 := LegacyStep(m, p, regex, reserved).1;
      p2.Obj? && forall k :: k != "regex" && k != "reserved" ==> Get(p2, k) == Get(p, k)
  {
  }

  /**
   * A top-level `properties` object is assigned onto an object
   * `mangle.properties`: its keys win, the existing ones are kept, and only
   * `regex` and `reserved` are then rewritten.
   */
  lemma PropertiesAssigned(mangle: Value, properties: Value, regex: Value, reserved: Value)
    requires mangle.Obj? && properties.Obj? && Get(mangle, "properties").Obj?
    ensures var p0 := Get(mangle, "properties");
      var o := Normalized(mangle, properties, regex, reserved);
      var q := Get(o.mangle, "properties");
      o.result.Ok? && q.Obj?
      && forall k :: k != "regex" && k != "reserved" ==>
           Get(q, k) == (if k in properties.fields then properties.fields[k] else Get(p0, k))
  {
    var p0 := Get(mangle, "properties");
    var p1 := Obj(Assign(p0.fields, properties));
    var m1 := SetProp(mangle, "properties", p1);
    assert OverrideStep(mangle, p0, properties) == Ok((m1, p1));
    NormalizedSteps(mangle, properties, regex, reserved);
    assert BeforeCompile(mangle, properties, regex, reserved) == Some(LegacyStep(m1, p1, regex, reserved));
    var (m2, p2) := LegacyStep(m1, p1, regex, reserved);
    LegacyKeepsOthers(m1, p1, regex, reserved);
    CompileShape(m2, p2);
  }
}
