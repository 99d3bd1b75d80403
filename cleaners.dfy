/**
 * The cleaners of cmd/cleaners.go: `noopCleaner`, and `stringMapKeyCleaner`,
 * which turns interface-keyed maps whose keys are all strings into
 * string-keyed maps, recursively.
 */
module Cleaners {

  import opened Values

  /** Returns its argument unchanged. */
  function NoopCleaner(v: Value): (r: Value)
    ensures r == v
  {
    v
  }

  predicate AllStringKeys(entries: seq<(Value, Value)>)
  {
    forall i :: 0 <= i < |entries| ==> entries[i].0.Str?
  }

  /** The keys of an interface-keyed map whose keys are all strings, as strings. */
  function KeyStrings(entries: seq<(Value, Value)>): set<string>
    requires AllStringKeys(entries)
  {
    set i | 0 <= i < |entries| :: entries[i].0.s
  }

  /** A Go map never holds one key twice. */
  predicate UniqueKeys(entries: seq<(Value, Value)>)
  {
    forall i, j :: 0 <= i < j < |entries| ==> entries[i].0 != entries[j].0
  }

  /** The position of the last entry whose key is the string `k`. */
  function LastIndexOf(entries: seq<(Value, Value)>, k: string): (i: nat)
    requires exists j :: 0 <= j < |entries| && entries[j].0 == Str(k)
    ensures i < |entries| && entries[i].0 == Str(k)
    ensures forall j :: i < j < |entries| ==> entries[j].0 != Str(k)
    decreases |entries|
  {
    if entries[|entries| - 1].0 == Str(k) then |entries| - 1
    else LastIndexOf(entries[..|entries| - 1], k)
  }

  /**
   * `stringMapKeyCleaner`. An interface-keyed map with a non-string key is
   * returned as it is, nested values included; one whose keys are all strings
   * becomes a string-keyed map over the same keys; a sequence is cleaned
   * element by element; everything else (scalars, string-keyed maps) is
   * returned as it is. The function is total.
   */
  function StringMapKeyCleaner(v: Value): (r: Value)
    ensures v.AnyMap? && !AllStringKeys(v.entries) ==> r == v
    ensures v.AnyMap? && AllStringKeys(v.entries) ==> r.StrMap? && r.fields.Keys == KeyStrings(v.entries)
    ensures v.Seq? ==> r.Seq? && |r.items| == |v.items|
    ensures !v.AnyMap? && !v.Seq? ==> r == v
    decreases v
  {
    match v
    case AnyMap(entries) =>
      if AllStringKeys(entries) then
        StrMap(map k | k in KeyStrings(entries) :: StringMapKeyCleaner(entries[LastIndexOf(entries, k)].1))
      else v
    case Seq(items) =>
      Seq(seq(|items|, i requires 0 <= i < |items| => StringMapKeyCleaner(items[i])))
    case _ => v
  }

  /** A cleaned sequence holds, at each position, the cleaned original element. */
  lemma CleanSequenceElementwise(items: seq<Value>, i: nat)
    requires i < |items|
    ensures StringMapKeyCleaner(Seq(items)).items[i] == StringMapKeyCleaner(items[i])
  {
  }

  /** In a converted map each key maps to the cleaned value it had in the original map. */
  lemma CleanConvertedMapValue(entries: seq<(Value, Value)>, i: nat)
    requires AllStringKeys(entries) && UniqueKeys(entries) && i < |entries|
    ensures var r := StringMapKeyCleaner(AnyMap(entries));
            entries[i].0.s in r.fields && r.fields[entries[i].0.s] == StringMapKeyCleaner(entries[i].1)
  {
    var k := entries[i].0.s;
    assert k in KeyStrings(entries);
    assert LastIndexOf(entries, k) == i;
  }

  // ---------------------------------------------------------------------------
  // Fixed points and idempotence

  /**
   * A value the cleaner leaves alone: every interface-keyed map reachable
   * through sequences has a non-string key.
   */
  predicate Settled(v: Value)
    decreases v
  {
    match v
    case AnyMap(entries) => !AllStringKeys(entries)
    case Seq(items) => forall i :: 0 <= i < |items| ==> Settled(items[i])
    case _ => true
  }

  /** The cleaner's fixed points are exactly the settled values. */
  lemma {:induction false} SettledIffFixedPoint(v: Value)
    ensures Settled(v) <==> StringMapKeyCleaner(v) == v
    decreases v
  {
    match v
    case Seq(items) =>
      var r := StringMapKeyCleaner(v);
      forall i | 0 <= i < |items| {
        SettledIffFixedPoint(items[i]);
      }
      if StringMapKeyCleaner(v) == v {
        forall i | 0 <= i < |items| ensures Settled(items[i]) {
          assert r.items[i] == StringMapKeyCleaner(items[i]);
        }
      }
      if Settled(v) {
        assert r.items == items;
      }
    case AnyMap(entries) =>
    case _ =>
  }

  /** Every cleaned value is settled. */
  lemma {:induction false} CleanedIsSettled(v: Value)
    ensures Settled(StringMapKeyCleaner(v))
    decreases v
  {
    match v
    case Seq(items) =>
      var r := StringMapKeyCleaner(v);
      forall i | 0 <= i < |items| ensures Settled(r.items[i]) {
        CleanedIsSettled(items[i]);
      }
    case AnyMap(entries) =>
    case _ =>
  }

  /** Cleaning twice is cleaning once. */
  lemma Idempotent(v: Value)
    ensures StringMapKeyCleaner(StringMapKeyCleaner(v)) == StringMapKeyCleaner(v)
  {
    CleanedIsSettled(v);
    SettledIffFixedPoint(StringMapKeyCleaner(v));
  }

  // ---------------------------------------------------------------------------
  // Converted maps

  /** No string-keyed map anywhere: the shape of go-yaml's output. */
  predicate NoStringKeyedMap(v: Value)
    decreases v
  {
    match v
    case StrMap(_) => false
    case AnyMap(entries) => forall i :: 0 <= i < |entries| ==> NoStringKeyedMap(entries[i].0) && NoStringKeyedMap(entries[i].1)
    case Seq(items) => forall i :: 0 <= i < |items| ==> NoStringKeyedMap(items[i])
    case _ => true
  }

  /**
   * Every interface-keyed map reachable through sequences and string-keyed
   * maps has a non-string key.
   */
  predicate DeepSettled(v: Value)
    decreases v
  {
    match v
    case AnyMap(entries) => !AllStringKeys(entries)
    case Seq(items) => forall i :: 0 <= i < |items| ==> DeepSettled(items[i])
    case StrMap(fields) => forall k :: k in fields ==> DeepSettled(fields[k])
    case _ => true
  }

  /**
   * On a tree whose string-keyed maps are all produced by the cleaner itself,
   * every interface-keyed map left after cleaning, reachable through
   * sequences and converted maps, has a non-string key.
   */
  lemma {:induction false} CleanedConvertedMapsSettled(v: Value)
    requires NoStringKeyedMap(v)
    ensures DeepSettled(StringMapKeyCleaner(v))
    decreases v
  {
    match v
    case Seq(items) =>
      var r := StringMapKeyCleaner(v);
      forall i | 0 <= i < |items| ensures DeepSettled(r.items[i]) {
        CleanedConvertedMapsSettled(items[i]);
      }
    case AnyMap(entries) =>
      if AllStringKeys(entries) {
        var r := StringMapKeyCleaner(v);
        forall k | k in r.fields ensures DeepSettled(r.fields[k]) {
          var i := LastIndexOf(entries, k);
          CleanedConvertedMapsSettled(entries[i].1);
        }
      }
    case _ =>
  }
}
