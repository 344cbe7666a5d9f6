/**
 * Member-role reconciliation: every registry member gets a platform role
 * named "<name> (Alter)" carrying the member's colour. The differ compares
 * the alter roles present in the guild with the desired ones, keyed by
 * name, and emits one create, delete or colour update per differing name;
 * the driver issues those operations one by one and stops at the first
 * platform call that fails.
 */
module Roles {
  import opened Wrappers
  import opened Collections
  import Numerals

  type u32 = x: int | 0 <= x < 0x1_0000_0000

  /** A platform-assigned role identifier. */
  type RoleId = nat

  /** Marks the roles this system manages. */
  const AlterSuffix: string := " (Alter)"

  /** The platform's default role colour, used when a member has none. */
  const DefaultColour: u32 := 0x99AAB5

  datatype MemberRole = MemberRole(id: Option<RoleId>, name: string, colour: u32)

  datatype ChangeOperation =
    | Create(name: string, colour: u32)
    | Delete(id: RoleId, name: string)
    | Update(id: RoleId, name: string, colour: u32)

  /** A role as the guild lists it. */
  datatype PlatformRole = PlatformRole(id: RoleId, name: string, colour: u32)

  /** A registry member: its name, optional display name and optional colour text. */
  datatype Member = Member(name: string, displayName: Option<string>, colour: Option<string>)

  datatype RoleCounts = RoleCounts(created: nat, deleted: nat, updated: nat)

  datatype RoleError =
    | RegistryUnavailable
    | OperationFailed(op: ChangeOperation)

  // ---------------------------------------------------------------------
  // Current roles

  predicate IsAlterName(name: string) {
    |AlterSuffix| <= |name| && name[|name| - |AlterSuffix|..] == AlterSuffix
  }

  function ToMemberRole(r: PlatformRole): MemberRole {
    MemberRole(Some(r.id), r.name, r.colour)
  }

  /** The guild's alter roles keyed by name (a later role wins a name clash). */
  function CurrentRoles(roles: seq<PlatformRole>): (m: map<string, MemberRole>)
    ensures forall k :: k in m <==> IsAlterName(k) && exists r :: r in roles && r.name == k
    ensures forall k :: k in m ==>
      m[k].id.Some? && m[k].name == k && PlatformRole(m[k].id.value, k, m[k].colour) in roles
  {
    var alter := Filter(roles, IsAlterRole);
    var m := Collect(alter, RoleName, ToMemberRole);
    AlterRolesSound(roles, alter, m);
    AlterRolesComplete(roles, alter, m);
    m
  }

  predicate IsAlterRole(r: PlatformRole) {
    IsAlterName(r.name)
  }

  function RoleName(r: PlatformRole): string {
    r.name
  }

  lemma AlterRolesSound(roles: seq<PlatformRole>, alter: seq<PlatformRole>, m: map<string, MemberRole>)
    requires alter == Filter(roles, IsAlterRole)
    requires m == Collect(alter, RoleName, ToMemberRole)
    ensures forall k :: k in m ==> exists r :: r in roles && IsAlterName(r.name) && r.name == k && m[k] == ToMemberRole(r)
  {
    forall k | k in m ensures exists r :: r in roles && IsAlterName(r.name) && r.name == k && m[k] == ToMemberRole(r) {
      AlterRoleSource(roles, alter, m, k);
    }
  }

  lemma AlterRolesComplete(roles: seq<PlatformRole>, alter: seq<PlatformRole>, m: map<string, MemberRole>)
    requires alter == Filter(roles, IsAlterRole)
    requires m == Collect(alter, RoleName, ToMemberRole)
    ensures forall r :: r in roles && IsAlterName(r.name) ==> r.name in m
  {
    forall r | r in roles && IsAlterName(r.name) ensures r.name in m {
      AlterRoleKept(roles, alter, m, r);
    }
  }

  lemma AlterRoleSource(roles: seq<PlatformRole>, alter: seq<PlatformRole>, m: map<string, MemberRole>, k: string)
    requires alter == Filter(roles, IsAlterRole)
    requires m == Collect(alter, RoleName, ToMemberRole)
    requires k in m
    ensures exists r :: r in roles && IsAlterName(r.name) && r.name == k && m[k] == ToMemberRole(r)
  {
    var i :| 0 <= i < |alter| && RoleName(alter[i]) == k && m[k] == ToMemberRole(alter[i]);
    assert alter[i] in alter;
  }

  lemma AlterRoleKept(roles: seq<PlatformRole>, alter: seq<PlatformRole>, m: map<string, MemberRole>, r: PlatformRole)
    requires alter == Filter(roles, IsAlterRole)
    requires m == Collect(alter, RoleName, ToMemberRole)
    requires r in roles && IsAlterRole(r)
    ensures r.name in m
  {
    assert r in alter;
    CollectHasKey(alter, RoleName, ToMemberRole, r);
  }

  // ---------------------------------------------------------------------
  // Desired roles: name and colour normalisation

  /** `s` has the separator " (" starting at index `i`. */
  predicate SeparatorAt(s: string, i: int) {
    0 <= i && i + 1 < |s| && s[i] == ' ' && s[i + 1] == '('
  }

  predicate HasSeparator(s: string) {
    exists i :: 0 <= i < |s| && SeparatorAt(s, i)
  }

  /** The text before the first " (", or all of `s` when there is none. */
  function FirstSegment(s: string): (r: string)
    ensures r <= s
    ensures !HasSeparator(r)
    ensures HasSeparator(s) ==> SeparatorAt(s, |r|)
    ensures !HasSeparator(s) ==> r == s
  {
    if s == [] || SeparatorAt(s, 0) then []
    else
      var rest := FirstSegment(s[1..]);
      var r := [s[0]] + rest;
      assert forall i :: SeparatorAt(r, i) && i > 0 ==> SeparatorAt(rest, i - 1);
      assert forall i :: SeparatorAt(s, i) && i > 0 ==> SeparatorAt(s[1..], i - 1);
      assert forall i :: SeparatorAt(s[1..], i) ==> SeparatorAt(s, i + 1);
      r
  }

  /** The role name for a member name: cut at the first " (", then the suffix. */
  function NormaliseName(base: string): (r: string)
    ensures IsAlterName(r)
    ensures !HasSeparator(r[..|r| - |AlterSuffix|])
  {
    var r := FirstSegment(base) + AlterSuffix;
    assert r[..|r| - |AlterSuffix|] == FirstSegment(base);
    r
  }

  /** A member's role name: the display name if it has one, else its name, cut at the first " (". */
  function DesiredName(m: Member): (n: string)
    ensures IsAlterName(n)
    ensures n[..|n| - |AlterSuffix|] == FirstSegment(if m.displayName.Some? then m.displayName.value else m.name)
  {
    var n := NormaliseName(m.displayName.GetOr(m.name));
    assert n[..|n| - |AlterSuffix|] == FirstSegment(m.displayName.GetOr(m.name));
    n
  }

  /** `s` without its leading '#' characters. */
  function TrimHashes(s: string): (r: string)
    ensures |r| <= |s| && r == s[|s| - |r|..]
    ensures forall i :: 0 <= i < |s| - |r| ==> s[i] == '#'
    ensures r == [] || r[0] != '#'
  {
    if s != [] && s[0] == '#' then TrimHashes(s[1..]) else s
  }

  /** A member's colour: hexadecimal after any '#', else the default colour. */
  function ParseColour(colour: Option<string>): (c: u32)
    ensures colour.None? ==> c == DefaultColour
    ensures c != DefaultColour ==>
      && colour.Some?
      && var t := TrimHashes(colour.value);
      var digits := if |t| > 0 && t[0] == '+' then t[1..] else t;
      digits != [] && Numerals.AllDigits(digits, Numerals.Hexadecimal) && Numerals.Value(digits, Numerals.Hexadecimal) == c
  {
    match colour
    case None => DefaultColour
    case Some(text) =>
      match Numerals.FromStrRadix(TrimHashes(text), Numerals.Hexadecimal, 0x1_0000_0000)
      case Some(v) => v
      case None => DefaultColour
  }

  function DesiredRole(m: Member): (r: MemberRole)
    ensures r.id.None? && IsAlterName(r.name)
    ensures m.colour.None? ==> r.colour == DefaultColour
  {
    MemberRole(None, DesiredName(m), ParseColour(m.colour))
  }

  /** The registry's members as desired roles keyed by role name. */
  function DesiredRoles(members: seq<Member>): (m: map<string, MemberRole>)
    ensures forall k :: k in m <==> exists mem :: mem in members && DesiredName(mem) == k
    ensures forall k :: k in m ==> IsAlterName(k) && m[k].name == k && m[k].id == None
    ensures forall k :: k in m ==> exists mem :: mem in members && m[k] == DesiredRole(mem)
  {
    var m := Collect(members, DesiredName, DesiredRole);
    assert forall k :: k in m ==> exists mem :: mem in members && m[k] == DesiredRole(mem) && DesiredName(mem) == k by {
      forall k | k in m ensures exists mem :: mem in members && m[k] == DesiredRole(mem) && DesiredName(mem) == k {
        var i :| 0 <= i < |members| && DesiredName(members[i]) == k && m[k] == DesiredRole(members[i]);
        assert members[i] in members;
      }
    }
    m
  }

  /** Normalising a normalised name changes nothing. */
  lemma NormaliseIdempotent(base: string)
    ensures NormaliseName(NormaliseName(base)) == NormaliseName(base)
  {
    var p := FirstSegment(base);
    var s := p + AlterSuffix;
    assert SeparatorAt(s, |p|);
    var r := FirstSegment(s);
    if |r| + 1 < |p| {
      assert SeparatorAt(p, |r|);
    }
    assert |r| == |p|;
    assert r == s[..|p|] == p;
  }

  /** A colour written as '#'s followed by its hexadecimal numeral reads back as itself. */
  lemma ColourRoundTrip(colour: u32, hashes: nat)
    ensures ParseColour(Some(seq(hashes, _ => '#') + Numerals.Numeral(colour, Numerals.Hexadecimal))) == colour
  {
    var digits := Numerals.Numeral(colour, Numerals.Hexadecimal);
    var text := seq(hashes, _ => '#') + digits;
    assert digits[0] != '#';
    TrimLeadingHashes(hashes, digits);
    Numerals.NumeralRoundTrip(colour, Numerals.Hexadecimal, 0x1_0000_0000);
  }

  /**
   * Any hexadecimal digits after the '#'s, of either case, with leading
   * zeros and with or without a '+' before them, give their value, or the
   * default colour when it does not fit in 32 bits.
   */
  lemma ColourOfDigits(t: string, hashes: nat)
    requires t != [] && Numerals.AllDigits(t, Numerals.Hexadecimal)
    ensures var v := Numerals.Value(t, Numerals.Hexadecimal);
      ParseColour(Some(seq(hashes, _ => '#') + t)) == if v < 0x1_0000_0000 then v else DefaultColour
    ensures ParseColour(Some(seq(hashes, _ => '#') + "+" + t)) == ParseColour(Some(seq(hashes, _ => '#') + t))
  {
    assert Numerals.Radix.Hexadecimal.IsDigit(t[0]);
    TrimLeadingHashes(hashes, t);
    TrimLeadingHashes(hashes, "+" + t);
    assert seq(hashes, _ => '#') + "+" + t == seq(hashes, _ => '#') + ("+" + t);
    Numerals.DigitsRead(t, Numerals.Hexadecimal, 0x1_0000_0000);
  }

  /** Colour text made of '#'s alone, or of '#'s and a '+', gives the default colour. */
  lemma HashesOnlyDefault(hashes: nat)
    ensures ParseColour(Some(seq(hashes, _ => '#'))) == DefaultColour
    ensures ParseColour(Some(seq(hashes, _ => '#') + "+")) == DefaultColour
  {
    TrimLeadingHashes(hashes, "");
    TrimLeadingHashes(hashes, "+");
    assert seq(hashes, _ => '#') + "" == seq(hashes, _ => '#');
    Numerals.NoDigitsRejected(Numerals.Hexadecimal, 0x1_0000_0000);
  }

  /** Trimming removes exactly the leading run of '#'. */
  lemma {:induction false} TrimLeadingHashes(hashes: nat, rest: string)
    requires rest == [] || rest[0] != '#'
    ensures TrimHashes(seq(hashes, _ => '#') + rest) == rest
  {
    if hashes > 0 {
      var s := seq(hashes, _ => '#') + rest;
      assert s[1..] == seq(hashes - 1, _ => '#') + rest;
      TrimLeadingHashes(hashes - 1, rest);
    }
  }

  /** A colour text with a non-hexadecimal character after the '#'s falls back to the default. */
  lemma ColourFallback(text: string, i: nat)
    requires var t := TrimHashes(text);
      (0 < i < |t| || (i == 0 < |t| && t[0] != '+')) && !Numerals.Radix.Hexadecimal.IsDigit(t[i])
    ensures ParseColour(Some(text)) == DefaultColour
  {
    Numerals.StrayCharacterRejected(TrimHashes(text), Numerals.Hexadecimal, 0x1_0000_0000, i);
  }

  // ---------------------------------------------------------------------
  // The differ

  /** Every entry is stored under its own name. */
  predicate KeyedByName(m: map<string, MemberRole>) {
    forall k :: k in m ==> m[k].name == k
  }

  /** The current entries whose id the differ unwraps (deletes and colour updates) have one. */
  predicate IdsWhereUsed(current: map<string, MemberRole>, desired: map<string, MemberRole>) {
    forall k :: k in current && (k !in desired || current[k].colour != desired[k].colour) ==> current[k].id.Some?
  }

  function Get(m: map<string, MemberRole>, k: string): Option<MemberRole> {
    if k in m then Some(m[k]) else None
  }

  /** The operation, if any, for one role name. */
  function OpFor(current: map<string, MemberRole>, desired: map<string, MemberRole>, k: string): (ops: seq<ChangeOperation>)
    requires IdsWhereUsed(current, desired)
    requires k in current || k in desired
    ensures |ops| <= 1
    ensures ops == [] <==> k in current && k in desired && current[k].colour == desired[k].colour
    ensures ops != [] ==> (ops[0].Create? <==> k !in current) && (ops[0].Delete? <==> k !in desired)
  {
    match (Get(current, k), Get(desired, k))
    case (Some(c), Some(d)) =>
      if c.colour != d.colour then [Update(c.id.value, c.name, d.colour)] else []
    case (None, Some(d)) => [Create(d.name, d.colour)]
    case (Some(c), None) => [Delete(c.id.value, c.name)]
    case (None, None) => assert false; []
  }

  /**
   * The operations for the names in `order`, which lists the union of both
   * key sets in the hash set's (unspecified) iteration order.
   */
  function GetOps(current: map<string, MemberRole>, desired: map<string, MemberRole>, order: seq<string>): (ops: seq<ChangeOperation>)
    requires IdsWhereUsed(current, desired)
    requires forall k :: k in order ==> k in current || k in desired
    ensures |ops| <= |order|
  {
    if order == [] then [] else OpFor(current, desired, order[0]) + GetOps(current, desired, order[1..])
  }

  function OpNames(ops: seq<ChangeOperation>): seq<string> {
    seq(|ops|, i requires 0 <= i < |ops| => ops[i].name)
  }

  datatype OpKind = Created | Deleted | Updated

  function Kind(op: ChangeOperation): OpKind {
    match op
    case Create(_, _) => Created
    case Delete(_, _) => Deleted
    case Update(_, _, _) => Updated
  }

  /** The names the operations of one kind are about. */
  function NamesOf(ops: seq<ChangeOperation>, kind: OpKind): set<string> {
    set op | op in ops && Kind(op) == kind :: op.name
  }

  /** The names present on both sides whose colours differ. */
  function ChangedKeys(current: map<string, MemberRole>, desired: map<string, MemberRole>): set<string> {
    set k | k in current && k in desired && current[k].colour != desired[k].colour
  }

  /** What an operation of each kind carries, read off the two maps. */
  predicate Justified(current: map<string, MemberRole>, desired: map<string, MemberRole>, op: ChangeOperation) {
    match op
    case Create(name, colour) =>
      name in desired && name !in current && colour == desired[name].colour
    case Delete(id, name) =>
      name in current && name !in desired && current[name].id == Some(id)
    case Update(id, name, colour) =>
      && name in current && name in desired && current[name].colour != desired[name].colour
      && current[name].id == Some(id) && colour == desired[name].colour
  }

  /** The operation the differ owes a name, if it owes one. */
  predicate Covered(current: map<string, MemberRole>, desired: map<string, MemberRole>, ops: seq<ChangeOperation>, k: string)
    requires IdsWhereUsed(current, desired)
  {
    && (k in desired && k !in current ==> Create(k, desired[k].colour) in ops)
    && (k in current && k !in desired ==> Delete(current[k].id.value, k) in ops)
    && (k in ChangedKeys(current, desired) ==> Update(current[k].id.value, k, desired[k].colour) in ops)
  }

  /** The operation for one name is about that name, justified and owed. */
  lemma OpForFacts(current: map<string, MemberRole>, desired: map<string, MemberRole>, k: string)
    requires KeyedByName(current) && KeyedByName(desired) && IdsWhereUsed(current, desired)
    requires k in current || k in desired
    ensures var ops := OpFor(current, desired, k);
      && |ops| <= 1
      && (forall op :: op in ops ==> op.name == k && Justified(current, desired, op))
      && Covered(current, desired, ops, k)
  {
  }

  /** Every operation is about a listed name and is justified by the two maps. */
  lemma {:induction false} GetOpsJustified(current: map<string, MemberRole>, desired: map<string, MemberRole>, order: seq<string>)
    requires KeyedByName(current) && KeyedByName(desired) && IdsWhereUsed(current, desired)
    requires forall k :: k in order ==> k in current || k in desired
    ensures forall op :: op in GetOps(current, desired, order) ==> op.name in order && Justified(current, desired, op)
  {
    if order != [] {
      OpForFacts(current, desired, order[0]);
      GetOpsJustified(current, desired, order[1..]);
    }
  }

  /** A duplicate-free list of names yields operations about distinct names. */
  lemma {:induction false} GetOpsDistinct(current: map<string, MemberRole>, desired: map<string, MemberRole>, order: seq<string>)
    requires KeyedByName(current) && KeyedByName(desired) && IdsWhereUsed(current, desired)
    requires NoDups(order) && forall k :: k in order ==> k in current || k in desired
    ensures NoDups(OpNames(GetOps(current, desired, order)))
  {
    if order != [] {
      var k := order[0];
      var head := OpFor(current, desired, k);
      var rest := GetOps(current, desired, order[1..]);
      OpForFacts(current, desired, k);
      assert NoDups(order[1..]);
      GetOpsDistinct(current, desired, order[1..]);
      GetOpsJustified(current, desired, order[1..]);
      assert forall op :: op in rest ==> op.name != k;
      assert OpNames(head + rest) == OpNames(head) + OpNames(rest);
    }
  }

  /** Every listed name gets the operation it is owed. */
  lemma {:induction false} GetOpsComplete(current: map<string, MemberRole>, desired: map<string, MemberRole>, order: seq<string>)
    requires KeyedByName(current) && KeyedByName(desired) && IdsWhereUsed(current, desired)
    requires forall k :: k in order ==> k in current || k in desired
    ensures forall k :: k in order ==> Covered(current, desired, GetOps(current, desired, order), k)
  {
    if order != [] {
      var k := order[0];
      var head := OpFor(current, desired, k);
      var rest := GetOps(current, desired, order[1..]);
      OpForFacts(current, desired, k);
      GetOpsComplete(current, desired, order[1..]);
      forall k' | k' in order ensures Covered(current, desired, head + rest, k') {
        if k' != k {
          assert k' in order[1..];
          assert Covered(current, desired, rest, k');
        }
      }
    }
  }

  /**
   * With the names of both maps listed once each, the operations partition
   * them: creates for desired-only names, deletes for current-only names and
   * updates for the names whose colours differ, no name twice.
   */
  lemma GetOpsPartition(current: map<string, MemberRole>, desired: map<string, MemberRole>, order: seq<string>)
    requires KeyedByName(current) && KeyedByName(desired) && IdsWhereUsed(current, desired)
    requires NoDups(order) && forall k :: k in order <==> k in current || k in desired
    ensures var ops := GetOps(current, desired, order);
      && NoDups(OpNames(ops))
      && NamesOf(ops, Created) == desired.Keys - current.Keys
      && NamesOf(ops, Deleted) == current.Keys - desired.Keys
      && NamesOf(ops, Updated) == ChangedKeys(current, desired)
      && (forall op :: op in ops ==> Justified(current, desired, op))
  {
    var ops := GetOps(current, desired, order);
    GetOpsJustified(current, desired, order);
    GetOpsDistinct(current, desired, order);
    GetOpsComplete(current, desired, order);
    forall k | k in desired.Keys - current.Keys ensures k in NamesOf(ops, Created) {
      assert Covered(current, desired, ops, k);
    }
    forall k | k in current.Keys - desired.Keys ensures k in NamesOf(ops, Deleted) {
      assert Covered(current, desired, ops, k);
    }
    forall k | k in ChangedKeys(current, desired) ensures k in NamesOf(ops, Updated) {
      assert Covered(current, desired, ops, k);
    }
  }

  // ---------------------------------------------------------------------
  // Applying operations to the platform's alter roles

  /** The colour of each role, by name: all that the operations change. */
  function ColourView(m: map<string, MemberRole>): map<string, u32> {
    map k | k in m :: m[k].colour
  }

  function ApplyOp(view: map<string, u32>, op: ChangeOperation): map<string, u32> {
    match op
    case Create(name, colour) => view[name := colour]
    case Delete(_, name) => view - {name}
    case Update(_, name, colour) => view[name := colour]
  }

  /** The effect of the operations, applied first to last. */
  function ApplyOps(view: map<string, u32>, ops: seq<ChangeOperation>): map<string, u32> {
    if ops == [] then view else ApplyOp(ApplyOps(view, ops[..|ops| - 1]), ops[|ops| - 1])
  }

  lemma {:induction false} ApplyOpsAppend(view: map<string, u32>, a: seq<ChangeOperation>, b: seq<ChangeOperation>)
    ensures ApplyOps(view, a + b) == ApplyOps(ApplyOps(view, a), b)
    decreases |b|
  {
    if b == [] {
      assert a + b == a;
    } else {
      assert (a + b)[..|a + b| - 1] == a + b[..|b| - 1];
      ApplyOpsAppend(view, a, b[..|b| - 1]);
    }
  }

  /**
   * Applying the operations for the names in `order` makes the view agree
   * with the desired colours on those names and leaves every other name alone.
   */
  lemma {:induction false} ApplyGetOps(current: map<string, MemberRole>, desired: map<string, MemberRole>, order: seq<string>, view: map<string, u32>)
    requires KeyedByName(current) && KeyedByName(desired) && IdsWhereUsed(current, desired)
    requires NoDups(order) && forall k :: k in order ==> k in current || k in desired
    requires forall k :: k in order ==> (k in view <==> k in current) && (k in current ==> view[k] == current[k].colour)
    ensures var after := ApplyOps(view, GetOps(current, desired, order));
      && (forall k :: k in order ==> (k in after <==> k in desired) && (k in desired ==> after[k] == desired[k].colour))
      && (forall k :: k !in order ==> (k in after <==> k in view) && (k in view ==> after[k] == view[k]))
  {
    if order != [] {
      var k := order[0];
      var head := OpFor(current, desired, k);
      var mid := ApplyOps(view, head);
      assert GetOps(current, desired, order) == head + GetOps(current, desired, order[1..]);
      ApplyOpsAppend(view, head, GetOps(current, desired, order[1..]));
      ApplyOpFor(current, desired, k, view);
      assert NoDups(order[1..]);
      assert forall k' :: k' in order[1..] ==> k' != k;
      ApplyGetOps(current, desired, order[1..], mid);
    }
  }

  /** The operation for one name brings that name to its desired colour and touches no other. */
  lemma ApplyOpFor(current: map<string, MemberRole>, desired: map<string, MemberRole>, k: string, view: map<string, u32>)
    requires KeyedByName(current) && KeyedByName(desired) && IdsWhereUsed(current, desired)
    requires k in current || k in desired
    requires (k in view <==> k in current) && (k in current ==> view[k] == current[k].colour)
    ensures var after := ApplyOps(view, OpFor(current, desired, k));
      && (k in after <==> k in desired) && (k in desired ==> after[k] == desired[k].colour)
      && (forall k' :: k' != k ==> (k' in after <==> k' in view) && (k' in view ==> after[k'] == view[k']))
  {
    var head := OpFor(current, desired, k);
    if head != [] {
      assert head == [head[0]] && head[..0] == [];
      assert ApplyOps(view, head) == ApplyOp(view, head[0]);
    }
  }

  /** Applying every operation turns the current colours into the desired ones. */
  lemma ApplyConverges(current: map<string, MemberRole>, desired: map<string, MemberRole>, order: seq<string>)
    requires KeyedByName(current) && KeyedByName(desired) && IdsWhereUsed(current, desired)
    requires NoDups(order) && forall k :: k in order <==> k in current || k in desired
    ensures ApplyOps(ColourView(current), GetOps(current, desired, order)) == ColourView(desired)
  {
    ApplyGetOps(current, desired, order, ColourView(current));
  }

  /** Nothing to do when the colours already agree name for name: a second run is empty. */
  lemma {:induction false} GetOpsInSync(current: map<string, MemberRole>, desired: map<string, MemberRole>, order: seq<string>)
    requires ColourView(current) == ColourView(desired)
    requires forall k :: k in order ==> k in current || k in desired
    ensures IdsWhereUsed(current, desired)
    ensures GetOps(current, desired, order) == []
  {
    assert forall k :: k in current <==> k in ColourView(current);
    assert forall k :: k in current ==> current[k].colour == ColourView(current)[k];
    if order != [] {
      GetOpsInSync(current, desired, order[1..]);
    }
  }

  // ---------------------------------------------------------------------
  // Counting

  /** Counts one operation under its kind. */
  function Tally(counts: RoleCounts, op: ChangeOperation): (r: RoleCounts)
    ensures CountOf(r, Kind(op)) == CountOf(counts, Kind(op)) + 1
    ensures forall kind :: kind != Kind(op) ==> CountOf(r, kind) == CountOf(counts, kind)
  {
    match op
    case Create(_, _) => counts.(created := counts.created + 1)
    case Delete(_, _) => counts.(deleted := counts.deleted + 1)
    case Update(_, _, _) => counts.(updated := counts.updated + 1)
  }

  /** The summary fold over the operations, first to last. */
  function CountOps(ops: seq<ChangeOperation>): RoleCounts {
    if ops == [] then RoleCounts(0, 0, 0) else Tally(CountOps(ops[..|ops| - 1]), ops[|ops| - 1])
  }

  lemma {:induction false} CountOpsTotal(ops: seq<ChangeOperation>)
    ensures var c := CountOps(ops); c.created + c.deleted + c.updated == |ops|
  {
    if ops != [] {
      CountOpsTotal(ops[..|ops| - 1]);
    }
  }

  function CountOf(counts: RoleCounts, kind: OpKind): nat {
    match kind
    case Created => counts.created
    case Deleted => counts.deleted
    case Updated => counts.updated
  }

  /** With no name repeated, the count of a kind is the number of names of that kind. */
  lemma {:induction false} CountOpsDistinct(ops: seq<ChangeOperation>, kind: OpKind)
    requires NoDups(OpNames(ops))
    ensures CountOf(CountOps(ops), kind) == |NamesOf(ops, kind)|
  {
    if ops != [] {
      var init := ops[..|ops| - 1];
      var last := ops[|ops| - 1];
      assert OpNames(init) == OpNames(ops)[..|init|];
      CountOpsDistinct(init, kind);
      assert ops == init + [last];
      NamesOfSnoc(init, last, kind);
      LastNameFresh(ops, kind);
    }
  }

  lemma NamesOfSnoc(init: seq<ChangeOperation>, last: ChangeOperation, kind: OpKind)
    ensures NamesOf(init + [last], kind) == NamesOf(init, kind) + if Kind(last) == kind then {last.name} else {}
  {
    assert forall op :: op in init + [last] <==> op in init || op == last;
  }

  lemma LastNameFresh(ops: seq<ChangeOperation>, kind: OpKind)
    requires ops != [] && NoDups(OpNames(ops))
    ensures ops[|ops| - 1].name !in NamesOf(ops[..|ops| - 1], kind)
  {
    var init := ops[..|ops| - 1];
    forall op | op in init ensures op.name != ops[|ops| - 1].name {
      var i :| 0 <= i < |init| && init[i] == op;
      assert ops[i] == op;
      assert OpNames(ops)[i] == op.name && OpNames(ops)[|ops| - 1] == ops[|ops| - 1].name;
    }
  }

  /** The summary of a run counts desired-only, current-only and recoloured names. */
  lemma CountsOfGetOps(current: map<string, MemberRole>, desired: map<string, MemberRole>, order: seq<string>)
    requires KeyedByName(current) && KeyedByName(desired) && IdsWhereUsed(current, desired)
    requires NoDups(order) && forall k :: k in order <==> k in current || k in desired
    ensures CountOps(GetOps(current, desired, order))
      == RoleCounts(|desired.Keys - current.Keys|, |current.Keys - desired.Keys|, |ChangedKeys(current, desired)|)
  {
    var ops := GetOps(current, desired, order);
    GetOpsPartition(current, desired, order);
    CountOpsDistinct(ops, Created);
    CountOpsDistinct(ops, Deleted);
    CountOpsDistinct(ops, Updated);
  }

  // ---------------------------------------------------------------------
  // The driver

  /**
   * Issues the operations in order. `respond(i)` is the platform's answer to
   * the i-th call; the first failure ends the loop (later operations are not
   * attempted). Returns how many calls were made, whether all succeeded, and
   * the alter-role colours afterwards (a failed call changes nothing).
   */
  method ApplyChanges(ops: seq<ChangeOperation>, view: map<string, u32>, respond: nat -> bool)
    returns (attempted: nat, ok: bool, after: map<string, u32>)
    ensures ok <==> forall i :: 0 <= i < |ops| ==> respond(i)
    ensures ok ==> attempted == |ops| && after == ApplyOps(view, ops)
    ensures !ok ==>
      && 0 < attempted <= |ops| && !respond(attempted - 1)
      && (forall i :: 0 <= i < attempted - 1 ==> respond(i))
      && after == ApplyOps(view, ops[..attempted - 1])
  {
    var i := 0;
    after := view;
    while i < |ops|
      invariant 0 <= i <= |ops|
      invariant forall j :: 0 <= j < i ==> respond(j)
      invariant after == ApplyOps(view, ops[..i])
    {
      if !respond(i) {
        return i + 1, false, after;
      }
      assert ops[..i + 1][..i] == ops[..i];
      after := ApplyOp(after, ops[i]);
      i := i + 1;
    }
    assert ops[..i] == ops;
    return i, true, after;
  }

  /** `ops` is the differ's output for some iteration order of the union of the two key sets. */
  ghost predicate DiffOf(current: map<string, MemberRole>, desired: map<string, MemberRole>, ops: seq<ChangeOperation>) {
    && IdsWhereUsed(current, desired)
    && exists order ::
      && NoDups(order) && (forall k :: k in order <==> k in current || k in desired)
      && ops == GetOps(current, desired, order)
  }

  /**
   * What a run of the differ and the driver reports: Ok exactly when every
   * call succeeded, and then the tracked alter roles (one per name, as
   * `CurrentRoles` keeps them) hold the desired colours and the counts are
   * the sizes of the partition; otherwise the calls before the failing one
   * succeeded, and the error names the failing operation.
   */
  ghost predicate RunReport(current: map<string, MemberRole>, desired: map<string, MemberRole>, respond: nat -> bool,
                            r: Result<RoleCounts, RoleError>, ops: seq<ChangeOperation>, attempted: nat, platform: map<string, u32>)
  {
    && DiffOf(current, desired, ops)
    && attempted <= |ops|
    && (r.Ok? <==> forall i :: 0 <= i < attempted ==> respond(i))
    && (r.Ok? ==>
          && attempted == |ops|
          && platform == ApplyOps(ColourView(current), ops) == ColourView(desired)
          && r.value == RoleCounts(|desired.Keys - current.Keys|, |current.Keys - desired.Keys|, |ChangedKeys(current, desired)|)
          && attempted == r.value.created + r.value.deleted + r.value.updated)
    && (r.Err? ==>
          && 0 < attempted && !respond(attempted - 1)
          && (forall i :: 0 <= i < attempted - 1 ==> respond(i))
          && r.error == OperationFailed(ops[attempted - 1]) && Justified(current, desired, r.error.op)
          && platform == ApplyOps(ColourView(current), ops[..attempted - 1]))
  }

  /** Diffs the two role maps and issues the operations. */
  method Reconcile(current: map<string, MemberRole>, desired: map<string, MemberRole>, respond: nat -> bool)
    returns (r: Result<RoleCounts, RoleError>, ops: seq<ChangeOperation>, attempted: nat, platform: map<string, u32>)
    requires KeyedByName(current) && KeyedByName(desired) && IdsWhereUsed(current, desired)
    ensures RunReport(current, desired, respond, r, ops, attempted, platform)
  {
    var order := Enumerate(current.Keys + desired.Keys);
    ops := GetOps(current, desired, order);
    assert DiffOf(current, desired, ops);
    GetOpsPartition(current, desired, order);
    var ok;
    attempted, ok, platform := ApplyChanges(ops, ColourView(current), respond);
    if !ok {
      assert ops[attempted - 1] in ops;
      return Err(OperationFailed(ops[attempted - 1])), ops, attempted, platform;
    }
    ApplyConverges(current, desired, order);
    CountsOfGetOps(current, desired, order);
    CountOpsTotal(ops);
    r := Ok(CountOps(ops));
  }

  /**
   * One role reconciliation: read the guild's alter roles, read the registry
   * (`registry` is None when that call fails), diff, apply, and report the
   * counts. `ops` is the differ's output, `attempted` the number of calls made
   * and `platform` the colours of the tracked alter roles (one per name) at
   * the end.
   */
  method UpdateMemberRoles(guildRoles: seq<PlatformRole>, registry: Option<seq<Member>>, respond: nat -> bool)
    returns (r: Result<RoleCounts, RoleError>, ops: seq<ChangeOperation>, attempted: nat, platform: map<string, u32>)
    ensures registry.None? ==>
      && r == Err(RegistryUnavailable) && ops == [] && attempted == 0
      && platform == ColourView(CurrentRoles(guildRoles))
    ensures registry.Some? ==>
      RunReport(CurrentRoles(guildRoles), DesiredRoles(registry.value), respond, r, ops, attempted, platform)
  {
    var current := CurrentRoles(guildRoles);
    if registry.None? {
      return Err(RegistryUnavailable), [], 0, ColourView(current);
    }
    var desired := DesiredRoles(registry.value);
    r, ops, attempted, platform := Reconcile(current, desired, respond);
  }
}
