/** The constant `set_args` tables of adc-command.c and vref-command.c: a
    name the user may type and the register value it stands for, searched
    from the front with a loop that stops at the first hit. */
module Table {
  import opened Options
  import opened CText

  datatype Named = Named(name: string, value: bv8)

  /** Every name of the table is a C string. */
  predicate Names(t: seq<Named>) {
    forall i | 0 <= i < |t| :: NoNul(t[i].name)
  }

  /** Index of the first entry whose name equals `arg` up to case. */
  function NameIndex(t: seq<Named>, arg: string): (r: Option<nat>)
    ensures r.Some? ==> r.value < |t| && EqualIgnoringCase(t[r.value].name, arg)
    ensures r.Some? ==> forall j | 0 <= j < r.value :: !EqualIgnoringCase(t[j].name, arg)
    ensures r.None? ==> forall j | 0 <= j < |t| :: !EqualIgnoringCase(t[j].name, arg)
  {
    if |t| == 0 then None
    else if EqualIgnoringCase(t[0].name, arg) then Some(0)
    else
      match NameIndex(t[1..], arg)
      case None => None
      case Some(i) => Some(i + 1)
  }

  /** Index of the first entry whose value is `v`. */
  function ValueIndex(t: seq<Named>, v: bv8): (r: Option<nat>)
    ensures r.Some? ==> r.value < |t| && t[r.value].value == v
    ensures r.Some? ==> forall j | 0 <= j < r.value :: t[j].value != v
    ensures r.None? ==> forall j | 0 <= j < |t| :: t[j].value != v
  {
    if |t| == 0 then None
    else if t[0].value == v then Some(0)
    else
      match ValueIndex(t[1..], v)
      case None => None
      case Some(i) => Some(i + 1)
  }

  /** The SET loop: `strcasecmp(set_args[i].name, arg) == 0` over the
      table, `break` at the first hit. */
  method FindName(t: seq<Named>, arg: string) returns (found: bool, value: bv8)
    requires Names(t) && NoNul(arg)
    ensures found <==> NameIndex(t, arg).Some?
    ensures found ==> value == t[NameIndex(t, arg).value].value
  {
    found := false;
    value := 0;
    var i := 0;
    while i < |t|
      invariant 0 <= i <= |t|
      invariant forall j | 0 <= j < i :: !EqualIgnoringCase(t[j].name, arg)
    {
      if CaseCmp(t[i].name, arg) == 0 {
        found := true;
        value := t[i].value;
        FirstByName(t, i, arg);
        break;
      }
      i := i + 1;
    }
  }

  /** The query loop of VREF: the first entry whose value equals `v`. */
  method FindValue(t: seq<Named>, v: bv8) returns (found: bool, name: string)
    ensures found <==> ValueIndex(t, v).Some?
    ensures found ==> name == t[ValueIndex(t, v).value].name
  {
    found := false;
    name := "";
    var i := 0;
    while i < |t|
      invariant 0 <= i <= |t|
      invariant forall j | 0 <= j < i :: t[j].value != v
    {
      if t[i].value == v {
        found := true;
        name := t[i].name;
        FirstByValue(t, i, v);
        break;
      }
      i := i + 1;
    }
  }

  lemma FirstByName(t: seq<Named>, i: nat, arg: string)
    requires i < |t| && EqualIgnoringCase(t[i].name, arg)
    requires forall j | 0 <= j < i :: !EqualIgnoringCase(t[j].name, arg)
    ensures NameIndex(t, arg) == Some(i)
  {
  }

  lemma FirstByValue(t: seq<Named>, i: nat, v: bv8)
    requires i < |t| && t[i].value == v
    requires forall j | 0 <= j < i :: t[j].value != v
    ensures ValueIndex(t, v) == Some(i)
  {
  }

  /** No two names of the table are equal up to case. */
  predicate DistinctNames(t: seq<Named>) {
    forall j, k | 0 <= j < k < |t| :: !EqualIgnoringCase(t[j].name, t[k].name)
  }

  /** No two values of the table are equal. */
  predicate DistinctValues(t: seq<Named>) {
    forall j, k | 0 <= j < k < |t| :: t[j].value != t[k].value
  }

  /** With distinct names, any spelling of an entry's name finds that
      entry. */
  lemma NameFindsEntry(t: seq<Named>, i: nat, arg: string)
    requires DistinctNames(t) && i < |t|
    requires EqualIgnoringCase(t[i].name, arg)
    ensures NameIndex(t, arg) == Some(i)
  {
    var r := NameIndex(t, arg);
    assert r.Some? && r.value <= i;
    if r.value < i {
      FoldTransitive(t[r.value].name, t[i].name, arg);
    }
  }

  /** With distinct values, an entry's value finds that entry. */
  lemma ValueFindsEntry(t: seq<Named>, i: nat)
    requires DistinctValues(t) && i < |t|
    ensures ValueIndex(t, t[i].value) == Some(i)
  {
    var r := ValueIndex(t, t[i].value);
    assert r.Some? && r.value <= i;
  }
}
