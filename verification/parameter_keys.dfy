/** The expert-mode input record of the envelope derivation and the
    naming-convention check run when it is constructed. */
module ParameterKeys {

  /** A field value: a number, a dictionary (its entries in insertion order),
      or anything else that is not a dictionary and so escapes the check. */
  datatype Value = Num(x: real) | Dict(entries: seq<(string, real)>) | NonDict

  /** The expert-mode parameters, one member per dataclass field, named as
      the dataclass names them: the key check compares key prefixes with
      these field names. */
  datatype BuildingParameters = BuildingParameters(
    floor_area: real,
    heat_transfer_coefficient_ventilation: real,
    total_air_change_rate: real,
    room_height: real,
    a_roof: Value,
    u_roof: Value,
    b_roof: Value,
    a_floor: Value,
    u_floor: Value,
    b_floor: Value,
    a_wall: Value,
    u_wall: Value,
    b_wall: Value,
    a_door: Value,
    u_door: Value,
    a_window: Value,
    a_window_specific: Value,
    delta_u_thermal_bridging: Value,
    u_window: Value,
    g_gl_n_window: Value
  )

  /** Why construction was refused (each is a `ValueError` in the source). */
  datatype KeyError =
    | PrefixMismatch(field: string, key: string)
    | NotAnInteger(field: string, key: string)
    | MissingOrientations(field: string)

  datatype Check = Pass | Fail(error: KeyError)

  /** The dataclass fields in declaration order, as (name, value) pairs. */
  function Fields(p: BuildingParameters): (fs: seq<(string, Value)>)
    ensures |fs| == 20
  {
    [ ("floor_area", Num(p.floor_area)),
      ("heat_transfer_coefficient_ventilation", Num(p.heat_transfer_coefficient_ventilation)),
      ("total_air_change_rate", Num(p.total_air_change_rate)),
      ("room_height", Num(p.room_height)),
      ("a_roof", p.a_roof), ("u_roof", p.u_roof), ("b_roof", p.b_roof),
      ("a_floor", p.a_floor), ("u_floor", p.u_floor), ("b_floor", p.b_floor),
      ("a_wall", p.a_wall), ("u_wall", p.u_wall), ("b_wall", p.b_wall),
      ("a_door", p.a_door), ("u_door", p.u_door),
      ("a_window", p.a_window),
      ("a_window_specific", p.a_window_specific),
      ("delta_u_thermal_bridging", p.delta_u_thermal_bridging),
      ("u_window", p.u_window),
      ("g_gl_n_window", p.g_gl_n_window) ]
  }

  predicate StartsWith(s: string, prefix: string)
  {
    |prefix| <= |s| && s[..|prefix|] == prefix
  }

  predicate IsDigit(c: char)
  {
    '0' <= c <= '9'
  }

  predicate AllDigits(s: string)
  {
    forall i :: 0 <= i < |s| ==> IsDigit(s[i])
  }

  /** What Python's `int()` accepts, restricted to an optional sign followed
      by at least one decimal digit. */
  predicate IsIntegerLiteral(s: string)
  {
    if |s| > 0 && (s[0] == '+' || s[0] == '-') then |s| > 1 && AllDigits(s[1..])
    else |s| > 0 && AllDigits(s)
  }

  /** The five orientation keys the orientation-specific window field must hold. */
  const OrientationKeys: set<string> :=
    {"a_window_horizontal", "a_window_east", "a_window_south", "a_window_west", "a_window_north"}

  const WindowSpecificField: string := "a_window_specific"

  /** A key of field `field` is well named: `field + "_"` then an integer. */
  predicate KeyValid(field: string, key: string)
  {
    StartsWith(key, field + "_") && IsIntegerLiteral(key[|field| + 1..])
  }

  function Keys(entries: seq<(string, real)>): (ks: seq<string>)
    ensures |ks| == |entries|
    ensures forall i :: 0 <= i < |entries| ==> ks[i] == entries[i].0
  {
    if |entries| == 0 then [] else [entries[0].0] + Keys(entries[1..])
  }

  /** Checks every key in order and reports the first badly named one, with
      the prefix test taking precedence over the integer test. */
  function CheckNumberedKeys(field: string, keys: seq<string>): (c: Check)
    ensures c.Pass? <==> forall i :: 0 <= i < |keys| ==> KeyValid(field, keys[i])
    ensures c.Fail? ==> !c.error.MissingOrientations? && c.error.field == field
    ensures c.Fail? ==>
      exists i :: 0 <= i < |keys| && keys[i] == c.error.key &&
                  forall j :: 0 <= j < i ==> KeyValid(field, keys[j])
    ensures c.Fail? && c.error.PrefixMismatch? ==> !StartsWith(c.error.key, field + "_")
    ensures c.Fail? && c.error.NotAnInteger? ==>
      StartsWith(c.error.key, field + "_") && !IsIntegerLiteral(c.error.key[|field| + 1..])
  {
    if |keys| == 0 then Pass
    else if !StartsWith(keys[0], field + "_") then Fail(PrefixMismatch(field, keys[0]))
    else if !IsIntegerLiteral(keys[0][|field| + 1..]) then Fail(NotAnInteger(field, keys[0]))
    else
      var rest := CheckNumberedKeys(field, keys[1..]);
      if rest.Fail? then
        ghost var i :| 0 <= i < |keys[1..]| && keys[1..][i] == rest.error.key
          && (forall j :: 0 <= j < i ==> KeyValid(field, keys[1..][j]));
        assert keys[i + 1] == rest.error.key;
        rest
      else
        rest
  }

  /** The orientation-specific window field passes iff it holds all five
      orientation keys; further keys are allowed. */
  function CheckOrientationKeys(keys: seq<string>): (c: Check)
    ensures c.Pass? <==> forall k :: k in OrientationKeys ==> k in keys
    ensures c.Fail? ==> c.error == MissingOrientations(WindowSpecificField)
  {
    if OrientationKeys <= set k | k in keys then Pass
    else Fail(MissingOrientations(WindowSpecificField))
  }

  /** A field is checked iff its name starts with `a_`, `u_` or `b_` and it holds a dictionary. */
  predicate IsChecked(name: string, v: Value)
  {
    (StartsWith(name, "a_") || StartsWith(name, "u_") || StartsWith(name, "b_")) && v.Dict?
  }

  /** Whether one field satisfies its naming rule. */
  predicate FieldValid(name: string, v: Value)
  {
    IsChecked(name, v) ==>
      if name == WindowSpecificField then
        forall k :: k in OrientationKeys ==> k in Keys(v.entries)
      else
        forall i :: 0 <= i < |v.entries| ==> KeyValid(name, v.entries[i].0)
  }

  function CheckField(name: string, v: Value): (c: Check)
    ensures c.Pass? <==> FieldValid(name, v)
    ensures c.Fail? ==> IsChecked(name, v)
  {
    if !IsChecked(name, v) then Pass
    else if name == WindowSpecificField then CheckOrientationKeys(Keys(v.entries))
    else CheckNumberedKeys(name, Keys(v.entries))
  }

  /** Checks the fields in order, stopping at the first failure. */
  function CheckFields(fs: seq<(string, Value)>): (c: Check)
    ensures c.Pass? <==> forall i :: 0 <= i < |fs| ==> FieldValid(fs[i].0, fs[i].1)
    ensures c.Fail? ==>
      exists i :: 0 <= i < |fs| && CheckField(fs[i].0, fs[i].1) == c &&
                  forall j :: 0 <= j < i ==> FieldValid(fs[j].0, fs[j].1)
  {
    if |fs| == 0 then Pass
    else
      var c0 := CheckField(fs[0].0, fs[0].1);
      if c0.Fail? then c0
      else
        var rest := CheckFields(fs[1..]);
        if rest.Fail? then
          ghost var i :| 0 <= i < |fs[1..]| && CheckField(fs[1..][i].0, fs[1..][i].1) == rest
            && forall j :: 0 <= j < i ==> FieldValid(fs[1..][j].0, fs[1..][j].1);
          assert CheckField(fs[i + 1].0, fs[i + 1].1) == rest;
          rest
        else
          rest
  }

  /** The construction-time check of the expert-mode parameters. */
  function Validate(p: BuildingParameters): (c: Check)
    ensures c.Pass? <==> forall i :: 0 <= i < |Fields(p)| ==> FieldValid(Fields(p)[i].0, Fields(p)[i].1)
  {
    CheckFields(Fields(p))
  }

  /** Two field lists that agree, position by position, on the check's
      verdict get the same overall verdict. */
  lemma {:induction false} CheckFieldsPointwise(fs: seq<(string, Value)>, gs: seq<(string, Value)>)
    requires |fs| == |gs|
    requires forall i :: 0 <= i < |fs| ==> CheckField(fs[i].0, fs[i].1) == CheckField(gs[i].0, gs[i].1)
    ensures CheckFields(fs) == CheckFields(gs)
    decreases |fs|
  {
    if |fs| > 0 {
      assert CheckField(fs[0].0, fs[0].1) == CheckField(gs[0].0, gs[0].1);
      CheckFieldsPointwise(fs[1..], gs[1..]);
    }
  }

  /** The thermal-bridging and glazing-transmittance fields are never checked:
      replacing them never changes the verdict. */
  lemma UncheckedFieldsIgnored(p: BuildingParameters, bridging: Value, glazing: Value)
    ensures Validate(p.(delta_u_thermal_bridging := bridging, g_gl_n_window := glazing)) == Validate(p)
  {
    var q := p.(delta_u_thermal_bridging := bridging, g_gl_n_window := glazing);
    assert !StartsWith("delta_u_thermal_bridging", "a_") by {
      assert "delta_u_thermal_bridging"[0] == 'd';
    }
    assert !StartsWith("delta_u_thermal_bridging", "u_") by {
      assert "delta_u_thermal_bridging"[0] == 'd';
    }
    assert !StartsWith("delta_u_thermal_bridging", "b_") by {
      assert "delta_u_thermal_bridging"[0] == 'd';
    }
    assert !StartsWith("g_gl_n_window", "a_") && !StartsWith("g_gl_n_window", "u_")
      && !StartsWith("g_gl_n_window", "b_") by {
      assert "g_gl_n_window"[0] == 'g';
    }
    CheckFieldsPointwise(Fields(q), Fields(p));
  }

  /** The orientation-specific window field accepts extra keys but no gap. */
  lemma OrientationSupersetAccepted(entries: seq<(string, real)>)
    ensures CheckField(WindowSpecificField, Dict(entries)).Pass?
      <==> OrientationKeys <= set k | k in Keys(entries)
  {
    assert StartsWith(WindowSpecificField, "a_") by {
      assert WindowSpecificField[..2] == "a_";
    }
  }
}
