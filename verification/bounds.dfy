/**
  The `min`/`max` configuration calls. Each field owns a list of validator entries;
  `min` withdraws the entry it installed last time (matched by function identity) and,
  for a non-null bound, appends a fresh one. `max` is the same on the other side.
 */
module Bounds {
  import opened Wrappers
  import opened BigLib
  import opened Templates

  /** What a validator function checks. `Foreign` is one installed by someone else. */
  datatype Rule = Above(bound: real) | Below(bound: real) | Foreign(name: string)

  /** A validator function object; `id` is its identity, so a fresh closure gets a fresh id. */
  datatype Fn = Fn(id: nat, rule: Rule)

  /** An entry of the field's `validators` list. */
  datatype Validator = Validator(validator: Fn, message: string, kind: string)

  /**
    The schema field: its path, validator list, the functions last installed by `min`
    and `max` (`this.minValidator`, `this.maxValidator`) and the next unused identity.
   */
  datatype Field = Field(
    path: string,
    validators: seq<Validator>,
    minValidator: Option<Fn>,
    maxValidator: Option<Fn>,
    nextId: nat)

  /** The mapper's default messages `errorMessages.Number.min` and `.max`. */
  datatype Messages = Messages(numberMin: string, numberMax: string)

  /** Which bound a call configures: `Lower` for `min`, `Upper` for `max`. */
  datatype Side = Lower | Upper

  function Flip(side: Side): Side {
    if side == Lower then Upper else Lower
  }

  function Tag(side: Side): string {
    if side == Lower then "min" else "max"
  }

  function Placeholder(side: Side): string {
    if side == Lower then "{MIN}" else "{MAX}"
  }

  function RuleFor(side: Side, bound: real): Rule {
    if side == Lower then Above(bound) else Below(bound)
  }

  predicate OfSide(rule: Rule, side: Side) {
    if side == Lower then rule.Above? else rule.Below?
  }

  function Installed(f: Field, side: Side): Option<Fn> {
    if side == Lower then f.minValidator else f.maxValidator
  }

  function DefaultMessage(msgs: Messages, side: Side): string {
    if side == Lower then msgs.numberMin else msgs.numberMax
  }

  /** The installed predicates: `v !== null && v.gt(bound)` and `v !== null && v.lt(bound)`. */
  predicate Admits(rule: Rule, v: Option<real>)
    requires rule.Above? || rule.Below?
  {
    match rule
    case Above(b) => v.Some? && v.value > b
    case Below(b) => v.Some? && v.value < b
  }

  /** The number of entries whose function checks a bound of the given side. */
  function Count(vs: seq<Validator>, side: Side): nat {
    if vs == [] then 0
    else (if OfSide(vs[0].validator.rule, side) then 1 else 0) + Count(vs[1..], side)
  }

  /** `validators.filter(v => v.validator !== fn)`. */
  function Drop(vs: seq<Validator>, fn: Fn): (r: seq<Validator>)
    ensures |r| <= |vs|
    ensures forall e :: e in r <==> e in vs && e.validator != fn
  {
    if vs == [] then []
    else (if vs[0].validator == fn then [] else [vs[0]]) + Drop(vs[1..], fn)
  }

  /** The entries that do not check a bound of the given side, in their original order. */
  function Others(vs: seq<Validator>, side: Side): (r: seq<Validator>)
    ensures |r| <= |vs|
    ensures forall e :: e in r <==> e in vs && !OfSide(e.validator.rule, side)
  {
    if vs == [] then []
    else (if OfSide(vs[0].validator.rule, side) then [] else [vs[0]]) + Others(vs[1..], side)
  }

  /**
    One side of the field's invariant: the installed function checks a bound of that side
    and is not newer than `nextId`; every entry checking that side is that function,
    tagged with the side's kind; and there is at most one such entry.
   */
  ghost predicate SideWF(f: Field, side: Side) {
    && (Installed(f, side).Some? ==>
          Installed(f, side).value.id < f.nextId && OfSide(Installed(f, side).value.rule, side))
    && (forall e :: e in f.validators && OfSide(e.validator.rule, side) ==>
          Installed(f, side) == Some(e.validator) && e.kind == Tag(side))
    && Count(f.validators, side) <= 1
  }

  ghost predicate WF(f: Field) {
    && (forall e :: e in f.validators ==> e.validator.id < f.nextId)
    && SideWF(f, Lower)
    && SideWF(f, Upper)
  }

  /**
    The field as the mapper hands it to `min`/`max`: validators installed by others
    (`required`, custom validators), no bound installed yet, and fresh ids above all
    the ones in use.
   */
  function NewField(path: string, foreign: seq<(string, string, string)>): (f: Field)
    ensures WF(f)
    ensures |f.validators| == |foreign| && Count(f.validators, Lower) == 0 && Count(f.validators, Upper) == 0
    ensures f.minValidator.None? && f.maxValidator.None?
  {
    var vs := seq(|foreign|, i requires 0 <= i < |foreign| =>
      Validator(Fn(i, Foreign(foreign[i].0)), foreign[i].1, foreign[i].2));
    NoBoundEntries(vs, Lower);
    NoBoundEntries(vs, Upper);
    Field(path, vs, None, None, |foreign|)
  }

  lemma {:induction false} NoBoundEntries(vs: seq<Validator>, side: Side)
    requires forall e :: e in vs ==> e.validator.rule.Foreign?
    ensures Count(vs, side) == 0
  {
    if vs != [] {
      assert vs[0] in vs;
      assert forall e :: e in vs[1..] ==> e in vs;
      NoBoundEntries(vs[1..], side);
    }
  }

  lemma {:induction false} DropIsOthers(vs: seq<Validator>, fn: Fn, side: Side)
    requires OfSide(fn.rule, side)
    requires forall e :: e in vs && OfSide(e.validator.rule, side) ==> e.validator == fn
    ensures Drop(vs, fn) == Others(vs, side)
  {
    if vs != [] {
      assert forall e :: e in vs[1..] ==> e in vs;
      DropIsOthers(vs[1..], fn, side);
    }
  }

  lemma {:induction false} OthersOfNone(vs: seq<Validator>, side: Side)
    requires forall e :: e in vs ==> !OfSide(e.validator.rule, side)
    ensures Others(vs, side) == vs
  {
    if vs != [] {
      assert forall e :: e in vs[1..] ==> e in vs;
      OthersOfNone(vs[1..], side);
    }
  }

  lemma {:induction false} CountAppend(a: seq<Validator>, b: seq<Validator>, side: Side)
    ensures Count(a + b, side) == Count(a, side) + Count(b, side)
  {
    if a == [] {
      assert a + b == b;
    } else {
      assert (a + b)[1..] == a[1..] + b;
      CountAppend(a[1..], b, side);
    }
  }

  lemma {:induction false} OthersAppend(a: seq<Validator>, b: seq<Validator>, side: Side)
    ensures Others(a + b, side) == Others(a, side) + Others(b, side)
  {
    if a == [] {
      assert a + b == b;
    } else {
      assert (a + b)[1..] == a[1..] + b;
      OthersAppend(a[1..], b, side);
    }
  }

  /** Withdrawing one side's entries removes all its entries and leaves the count of the other side alone. */
  lemma {:induction false} CountOthers(vs: seq<Validator>, side: Side)
    ensures Count(Others(vs, side), side) == 0
    ensures Count(Others(vs, side), Flip(side)) == Count(vs, Flip(side))
    ensures Others(Others(vs, side), side) == Others(vs, side)
  {
    if vs != [] {
      CountOthers(vs[1..], side);
      var head := if OfSide(vs[0].validator.rule, side) then [] else [vs[0]];
      CountAppend(head, Others(vs[1..], side), side);
      CountAppend(head, Others(vs[1..], side), Flip(side));
      OthersAppend(head, Others(vs[1..], side), side);
    }
  }

  /**
    The first half of `min`/`max`: the entries that remain after filtering out the
    previously installed function are exactly those that do not check this side.
   */
  function Withdraw(f: Field, side: Side): (kept: seq<Validator>)
    requires WF(f)
    ensures kept == Others(f.validators, side)
    ensures Count(kept, side) == 0
  {
    CountOthers(f.validators, side);
    match Installed(f, side)
    case None =>
      OthersOfNone(f.validators, side);
      f.validators
    case Some(fn) =>
      DropIsOthers(f.validators, fn, side);
      Drop(f.validators, fn)
  }

  /** `message || errorMessages.Number.min` (or `.max`): an absent or empty message falls back to the default. */
  function Template(message: Option<string>, side: Side, msgs: Messages): (t: string)
    ensures t == DefaultMessage(msgs, side) || (message.Some? && t == message.value != "")
    ensures message.Some? && message.value != "" ==> t == message.value
  {
    if message.Some? && message.value != "" then message.value else DefaultMessage(msgs, side)
  }

  /** `msg.replace(/{MIN}/, value)`: the first placeholder becomes the bound's string form. */
  function BoundMessage(message: Option<string>, side: Side, bound: real, lib: Library, msgs: Messages): (m: string)
    ensures var t := Template(message, side, msgs);
      && ((forall i: nat :: !OccursAt(t, Placeholder(side), i)) ==> m == t)
      && (forall i: nat :: FirstOccurrence(t, Placeholder(side), i) ==>
            m == t[..i] + lib.toString(bound) + t[i + |Placeholder(side)|..])
  {
    ReplaceFirst(Template(message, side, msgs), Placeholder(side), lib.toString(bound))
  }

  lemma AppendEntryKeepsCounts(kept: seq<Validator>, e: Validator, side: Side)
    requires OfSide(e.validator.rule, side)
    ensures Count(kept + [e], side) == Count(kept, side) + 1
    ensures Count(kept + [e], Flip(side)) == Count(kept, Flip(side))
    ensures Others(kept + [e], side) == Others(kept, side)
  {
    CountAppend(kept, [e], side);
    CountAppend(kept, [e], Flip(side));
    OthersAppend(kept, [e], side);
    assert [e][1..] == [];
  }

  /** `min` and `max` share this body; `side` selects the bound. */
  function SetBound(f: Field, side: Side, value: Option<real>, message: Option<string>, lib: Library, msgs: Messages): (g: Field)
    requires WF(f)
    ensures WF(g)
    ensures g.path == f.path
    ensures Installed(g, Flip(side)) == Installed(f, Flip(side))
    ensures Others(g.validators, side) == Others(f.validators, side)
    ensures Count(g.validators, side) == if value.Some? then 1 else 0
    ensures value.None? ==> g.validators == Others(f.validators, side)
    ensures value.Some? ==>
      && Installed(g, side).Some?
      && Installed(g, side).value.rule == RuleFor(side, value.value)
      && (forall e :: e in f.validators ==> e.validator != Installed(g, side).value)
      && g.validators == Others(f.validators, side)
                         + [Validator(Installed(g, side).value, BoundMessage(message, side, value.value, lib, msgs), Tag(side))]
  {
    var kept := Withdraw(f, side);
    CountOthers(f.validators, side);
    match value
    case None => f.(validators := kept)
    case Some(b) =>
      var fn := Fn(f.nextId, RuleFor(side, b));
      var e := Validator(fn, BoundMessage(message, side, b, lib, msgs), Tag(side));
      AppendEntryKeepsCounts(kept, e, side);
      var g := f.(validators := kept + [e], nextId := f.nextId + 1);
      if side == Lower then g.(minValidator := Some(fn)) else g.(maxValidator := Some(fn))
  }

  function Last(vs: seq<Validator>): Validator
    requires vs != []
  {
    vs[|vs| - 1]
  }

  /**
    `min(value, message)`. Afterwards at most one entry checks a lower bound and every
    other entry is kept in order; for a non-null bound that entry is the last one, tagged
    `'min'`, admitting exactly the non-null values strictly above the bound.
   */
  function Min(f: Field, value: Option<real>, message: Option<string>, lib: Library, msgs: Messages): (g: Field)
    requires WF(f)
    ensures WF(g)
    ensures g.path == f.path && g.maxValidator == f.maxValidator
    ensures Others(g.validators, Lower) == Others(f.validators, Lower)
    ensures value.None? ==> Count(g.validators, Lower) == 0 && g.validators == Others(f.validators, Lower)
    ensures value.Some? ==>
      && |g.validators| == |Others(f.validators, Lower)| + 1
      && Count(g.validators, Lower) == 1
      && var e := Last(g.validators);
         && g.minValidator == Some(e.validator)
         && e.kind == "min"
         && e.validator.rule.Above?
         && (forall v :: Admits(e.validator.rule, v) <==> v.Some? && v.value > value.value)
         && e.message == ReplaceFirst(Template(message, Lower, msgs), "{MIN}", lib.toString(value.value))
  {
    SetBound(f, Lower, value, message, lib, msgs)
  }

  /**
    `max(value, message)`: the mirror image of `Min`, admitting exactly the non-null
    values strictly below the bound, tagged `'max'`.
   */
  function Max(f: Field, value: Option<real>, message: Option<string>, lib: Library, msgs: Messages): (g: Field)
    requires WF(f)
    ensures WF(g)
    ensures g.path == f.path && g.minValidator == f.minValidator
    ensures Others(g.validators, Upper) == Others(f.validators, Upper)
    ensures value.None? ==> Count(g.validators, Upper) == 0 && g.validators == Others(f.validators, Upper)
    ensures value.Some? ==>
      && |g.validators| == |Others(f.validators, Upper)| + 1
      && Count(g.validators, Upper) == 1
      && var e := Last(g.validators);
         && g.maxValidator == Some(e.validator)
         && e.kind == "max"
         && e.validator.rule.Below?
         && (forall v :: Admits(e.validator.rule, v) <==> v.Some? && v.value < value.value)
         && e.message == ReplaceFirst(Template(message, Upper, msgs), "{MAX}", lib.toString(value.value))
  {
    SetBound(f, Upper, value, message, lib, msgs)
  }

  /** Calling `min` twice replaces the bound rather than accumulating entries. */
  lemma MinReplacesPrevious(f: Field, b1: real, b2: real, m1: Option<string>, m2: Option<string>, lib: Library, msgs: Messages)
    requires WF(f)
    ensures var g := Min(Min(f, Some(b1), m1, lib, msgs), Some(b2), m2, lib, msgs);
      && Count(g.validators, Lower) == 1
      && Last(g.validators).validator.rule == Above(b2)
      && Others(g.validators, Lower) == Others(f.validators, Lower)
  {
  }

  /** `min(null)` after `min(b)` leaves no lower-bound entry and every other entry in place. */
  lemma MinNullClears(f: Field, b: real, m: Option<string>, lib: Library, msgs: Messages)
    requires WF(f)
    ensures var g := Min(Min(f, Some(b), m, lib, msgs), None, None, lib, msgs);
      && Count(g.validators, Lower) == 0
      && g.validators == Others(f.validators, Lower)
  {
  }

  /** The bounds are strict: the installed entries reject `null` and the bound itself. */
  lemma BoundsAreStrict(f: Field, b: real, m: Option<string>, lib: Library, msgs: Messages)
    requires WF(f)
    ensures var e := Last(Min(f, Some(b), m, lib, msgs).validators);
      e.validator.rule.Above? && !Admits(e.validator.rule, Some(b)) && !Admits(e.validator.rule, None)
    ensures var e := Last(Max(f, Some(b), m, lib, msgs).validators);
      e.validator.rule.Below? && !Admits(e.validator.rule, Some(b)) && !Admits(e.validator.rule, None)
  {
  }

  /** Setting `max` does not disturb the entry `min` installed, and vice versa. */
  lemma {:induction false} BoundsAreIndependent(f: Field, lo: real, hi: real, m1: Option<string>, m2: Option<string>, lib: Library, msgs: Messages)
    requires WF(f)
    ensures var g1 := Min(f, Some(lo), m1, lib, msgs);
            var g2 := Max(g1, Some(hi), m2, lib, msgs);
      && g2.minValidator == g1.minValidator
      && Last(g1.validators) in g2.validators
      && Count(g2.validators, Lower) == 1
      && Count(g2.validators, Upper) == 1
  {
    var g1 := Min(f, Some(lo), m1, lib, msgs);
    var g2 := Max(g1, Some(hi), m2, lib, msgs);
    var e := Last(g1.validators);
    assert e in g1.validators;
    assert e in Others(g1.validators, Upper);
    assert e in Others(g2.validators, Upper);
    CountOthers(g1.validators, Upper);
    AppendEntryKeepsCounts(Others(g1.validators, Upper), Last(g2.validators), Upper);
  }
}

