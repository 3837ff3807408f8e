/**
 * Which lengths the parser reads.  at() checks that the first byte of a length lies inside the message buffer, and that
 * is the only check there is while a message is parsed.
 */
module Lengths {
  import opened MsgTypes
  import opened Wire

  /** Every length in the serialization of a value at pos starts before limit. */
  predicate LengthsInside(env: Definitions, f: FieldDef, v: Value, pos: nat, limit: nat)
    decreases v
  {
    match v
    case Scalar(_, _) => true
    case Text(_) => pos < limit
    case Record(fields) => AllLengthsInside(env, Fields(DefOf(env, f).members), fields, pos, limit)
    case Many(elements) =>
      (f.info.arraySize == -1 ==> pos < limit) &&
      AllLengthsInside(env, Copies(f, |elements|), elements, pos + |Prefix(f, |elements|)|, limit)
    case Packed(_, _) => f.info.arraySize == -1 ==> pos < limit
  }

  predicate AllLengthsInside(env: Definitions, fs: seq<FieldDef>, vs: seq<Value>, pos: nat, limit: nat)
    decreases vs
  {
    vs == [] ||
    (var vs0, n := vs[..|vs| - 1], |vs| - 1;
     AllLengthsInside(env, fs, vs0, pos, limit) &&
     LengthsInside(env, Nth(fs, n), vs[n], pos + |SerAll(env, fs, vs0)|, limit))
  }

  lemma InsideStep(env: Definitions, fs: seq<FieldDef>, vs: seq<Value>, k: nat, pos: nat, limit: nat)
    requires k < |vs|
    ensures AllLengthsInside(env, fs, vs[..k + 1], pos, limit) <==>
      AllLengthsInside(env, fs, vs[..k], pos, limit) &&
      LengthsInside(env, Nth(fs, k), vs[k], pos + |SerAll(env, fs, vs[..k])|, limit)
  {
    hide LengthsInside, SerAll;
    assert vs[..k + 1][..k] == vs[..k];
  }

  lemma NothingInside(env: Definitions, fs: seq<FieldDef>, vs: seq<Value>, pos: nat, limit: nat)
    ensures AllLengthsInside(env, fs, vs[..0], pos, limit)
  {
  }

  lemma {:induction false} InsidePrefix(env: Definitions, fs: seq<FieldDef>, vs: seq<Value>, k: nat, pos: nat,
        limit: nat)
    requires k <= |vs| && AllLengthsInside(env, fs, vs, pos, limit)
    ensures AllLengthsInside(env, fs, vs[..k], pos, limit)
  {
    hide LengthsInside;
    if k < |vs| {
      InsidePrefix(env, fs, vs[..|vs| - 1], k, pos, limit);
      assert vs[..|vs| - 1][..k] == vs[..k];
    } else {
      assert vs[..k] == vs;
    }
  }

  /** A value that lies inside the limit as a whole has its lengths there. */
  lemma {:induction false} WholeIsInside(env: Definitions, f: FieldDef, v: Value, pos: nat, limit: nat)
    requires pos + |Ser(env, f, v)| <= limit
    ensures LengthsInside(env, f, v, pos, limit)
    decreases v
  {
    hide SerAll, AllLengthsInside, Fields, Concat;
    match v
    case Record(fields) => AllIsInside(env, Fields(DefOf(env, f).members), fields, pos, limit);
    case Many(elements) =>
      AllIsInside(env, Copies(f, |elements|), elements, pos + |Prefix(f, |elements|)|, limit);
    case _ =>
  }

  lemma {:induction false} AllIsInside(env: Definitions, fs: seq<FieldDef>, vs: seq<Value>, pos: nat, limit: nat)
    requires pos + |SerAll(env, fs, vs)| <= limit
    ensures AllLengthsInside(env, fs, vs, pos, limit)
    decreases vs
  {
    hide Ser, LengthsInside;
    if vs != [] {
      var vs0, n := vs[..|vs| - 1], |vs| - 1;
      AllIsInside(env, fs, vs0, pos, limit);
      WholeIsInside(env, Nth(fs, n), vs[n], pos + |SerAll(env, fs, vs0)|, limit);
    }
  }
}
