/** `ca.configure_settings`: parameters to the reported `applied` map, to
    positional arguments, to registry values. */
module CaSettings {
  import opened Prelude
  import opened Text
  import opened Report
  import opened Authz
  import opened PowerShell
  import opened Registry

  datatype Setting =
    | DsConfigDn
    | CrlPeriodUnits | CrlPeriod
    | CrlDeltaPeriodUnits | CrlDeltaPeriod
    | CrlOverlapUnits | CrlOverlapPeriod
    | ValidityPeriodUnits | ValidityPeriod
    | AuditFilter

  /** Length and fourth character tell the parameters apart. */
  function NameTag(s: Setting): (nat, char) {
    match s
    case DsConfigDn => (10, 'o')
    case CrlPeriodUnits => (14, 'P')
    case CrlPeriod => (9, 'P')
    case CrlDeltaPeriodUnits => (19, 'D')
    case CrlDeltaPeriod => (14, 'D')
    case CrlOverlapUnits => (15, 'O')
    case CrlOverlapPeriod => (16, 'O')
    case ValidityPeriodUnits => (19, 'i')
    case ValidityPeriod => (14, 'i')
    case AuditFilter => (11, 'i')
  }

  function ParamName(s: Setting): string {
    match s
    case DsConfigDn => "dsConfigDn"
    case CrlPeriodUnits => "crlPeriodUnits"
    case CrlPeriod => "crlPeriod"
    case CrlDeltaPeriodUnits => "crlDeltaPeriodUnits"
    case CrlDeltaPeriod => "crlDeltaPeriod"
    case CrlOverlapUnits => "crlOverlapUnits"
    case CrlOverlapPeriod => "crlOverlapPeriod"
    case ValidityPeriodUnits => "validityPeriodUnits"
    case ValidityPeriod => "validityPeriod"
    case AuditFilter => "auditFilter"
  }

  /** Length and seventh character tell the registry values apart. */
  function PathTag(s: Setting): (nat, char) {
    match s
    case DsConfigDn => (13, 'o')
    case CrlPeriodUnits => (17, 'P')
    case CrlPeriod => (12, 'P')
    case CrlDeltaPeriodUnits => (22, 'D')
    case CrlDeltaPeriod => (17, 'D')
    case CrlOverlapUnits => (24, 'O')
    case CrlOverlapPeriod => (19, 'O')
    case ValidityPeriodUnits => (22, 'i')
    case ValidityPeriod => (17, 'i')
    case AuditFilter => (14, 'i')
  }

  /** The registry value the script writes for each argument. */
  function RegistryPath(s: Setting): (path: string)
    ensures |path| > 6 && (|path|, path[6]) == PathTag(s)
  {
    match s
    case DsConfigDn => "CA\\DSConfigDN"
    case CrlPeriodUnits => "CA\\CRLPeriodUnits"
    case CrlPeriod => "CA\\CRLPeriod"
    case CrlDeltaPeriodUnits => "CA\\CRLDeltaPeriodUnits"
    case CrlDeltaPeriod => "CA\\CRLDeltaPeriod"
    case CrlOverlapUnits => "CA\\CRLOverlapPeriodUnits"
    case CrlOverlapPeriod => "CA\\CRLOverlapPeriod"
    case ValidityPeriodUnits => "CA\\ValidityPeriodUnits"
    case ValidityPeriod => "CA\\ValidityPeriod"
    case AuditFilter => "CA\\AuditFilter"
  }

  lemma NameTagged(s: Setting)
    ensures |ParamName(s)| > 3 && (|ParamName(s)|, ParamName(s)[3]) == NameTag(s)
  {
  }

  lemma NamesAreDistinct(s: Setting, t: Setting)
    ensures ParamName(s) == ParamName(t) ==> s == t
  {
    NameTagged(s);
    NameTagged(t);
    assert NameTag(s) == NameTag(t) ==> s == t;
  }

  lemma PathsAreDistinct(s: Setting, t: Setting)
    ensures RegistryPath(s) == RegistryPath(t) ==> s == t
  {
    assert PathTag(s) == PathTag(t) ==> s == t;
  }

  // ---------- validation ----------

  datatype Rule = Dn | Unit(max: nat) | Period

  datatype Check = Check(setting: Setting, rule: Rule)

  /** The order in which the handler looks at its parameters. */
  const CHECKS: seq<Check> :=
    [Check(DsConfigDn, Dn),
     Check(CrlPeriodUnits, Unit(9999)),
     Check(CrlDeltaPeriodUnits, Unit(9999)),
     Check(CrlOverlapUnits, Unit(9999)),
     Check(ValidityPeriodUnits, Unit(9999)),
     Check(AuditFilter, Unit(127)),
     Check(CrlPeriod, Period),
     Check(CrlDeltaPeriod, Period),
     Check(CrlOverlapPeriod, Period),
     Check(ValidityPeriod, Period)]

  const PERIODS := ["Hours", "Days", "Weeks", "Months", "Years"]

  predicate ValidDn(value: string) {
    && "CN=Configuration,DC=" <= value
    && ByteLen(value) <= 200
    && forall c :: c in value ==> IsAsciiAlnum(c) || c in "=,.-"
  }

  predicate Obeys(rule: Rule, value: string) {
    match rule
    case Dn => ValidDn(value)
    case Unit(max) => ParseUnsigned(value, max).Some?
    case Period => value in PERIODS
  }

  function Complaint(check: Check): CommandError {
    InvalidParam(ParamName(check.setting),
      match check.rule
      case Dn => "must be a CN=Configuration,DC=... distinguished name"
      case Unit(max) => "must be an integer in 0-" + Decimal(max)
      case Period => "must be 'Hours', 'Days', 'Weeks', 'Months' or 'Years'")
  }

  /** A missing and an empty parameter are the same. */
  function Given(params: Params, s: Setting): string { ParamOr(params, ParamName(s), "") }

  predicate Acceptable(params: Params, check: Check) {
    Given(params, check.setting) == "" || Obeys(check.rule, Given(params, check.setting))
  }

  /** The settings among the checked ones that are given. */
  function GivenAmong(params: Params, checks: seq<Check>): map<Setting, string> {
    if checks == [] then map[]
    else
      var s := checks[|checks| - 1].setting;
      var before := GivenAmong(params, checks[..|checks| - 1]);
      if Given(params, s) == "" then before else before[s := Given(params, s)]
  }

  /** The settings given at all: what the result reports as applied. */
  function Applied(params: Params): (m: map<Setting, string>)
    ensures forall s :: s in m <==> Given(params, s) != ""
    ensures forall s :: s in m ==> m[s] == Given(params, s)
  {
    var all := {DsConfigDn, CrlPeriodUnits, CrlPeriod, CrlDeltaPeriodUnits, CrlDeltaPeriod,
                CrlOverlapUnits, CrlOverlapPeriod, ValidityPeriodUnits, ValidityPeriod, AuditFilter};
    map s | s in all && Given(params, s) != "" :: Given(params, s)
  }

  /** The first parameter, in the order of the checks, that is given and wrong. */
  function FirstComplaint(params: Params, checks: seq<Check>): Option<CommandError> {
    if checks == [] then None
    else
      var last := checks[|checks| - 1];
      match FirstComplaint(params, checks[..|checks| - 1])
      case Some(e) => Some(e)
      case None => if Acceptable(params, last) then None else Some(Complaint(last))
  }

  function Validate(params: Params): Result<map<Setting, string>, CommandError> {
    match FirstComplaint(params, CHECKS)
    case Some(e) => Err(e)
    case None =>
      if Applied(params) == map[] then Err(MissingParam("at least one CA setting"))
      else Ok(Applied(params))
  }

  lemma {:induction false} ComplaintStays(params: Params, checks: seq<Check>, n: nat)
    requires n <= |checks| && FirstComplaint(params, checks[..n]).Some?
    ensures FirstComplaint(params, checks) == FirstComplaint(params, checks[..n])
  {
    if n == |checks| {
      assert checks[..n] == checks;
    } else {
      assert checks[..|checks| - 1][..n] == checks[..n];
      ComplaintStays(params, checks[..|checks| - 1], n);
    }
  }

  lemma {:induction false} NoComplaint(params: Params, checks: seq<Check>)
    ensures FirstComplaint(params, checks).None? <==> forall c :: c in checks ==> Acceptable(params, c)
  {
    if checks != [] {
      var front, last := checks[..|checks| - 1], checks[|checks| - 1];
      NoComplaint(params, front);
      assert checks == front + [last];
    }
  }

  lemma {:induction false} GivenAmongFacts(params: Params, checks: seq<Check>)
    ensures var m := GivenAmong(params, checks);
            && (forall c :: c in checks && Given(params, c.setting) != "" ==> c.setting in m)
            && (forall s :: s in m ==> Given(params, s) != "" && m[s] == Given(params, s))
  {
    if checks != [] {
      var front, last := checks[..|checks| - 1], checks[|checks| - 1];
      GivenAmongFacts(params, front);
      assert checks == front + [last];
    }
  }

  /** The handler's validation as it runs: each check may insert into `applied`.
      `plan` lists the checks to come, `step` counts those behind. */
  class SettingsReader {
    const params: Params
    ghost const plan: seq<Check>
    var applied: map<Setting, string>
    ghost var step: nat

    /** `applied` holds what the checks so far have let through. */
    ghost predicate Valid()
      reads this
    {
      && step <= |plan|
      && FirstComplaint(params, plan[..step]).None?
      && applied == GivenAmong(params, plan[..step])
    }

    constructor (params: Params, ghost plan: seq<Check>)
      ensures Valid() && step == 0 && this.params == params && this.plan == plan
    {
      this.params := params;
      this.plan := plan;
      applied, step := map[], 0;
    }

    /** The next check: an error if the parameter is given and wrong. */
    method Next(check: Check) returns (value: Result<string, CommandError>)
      requires Valid() && step < |plan| && plan[step] == check
      modifies this
      ensures value.Ok? ==> Valid() && step == old(step) + 1 && value.value == Given(params, check.setting)
      ensures value.Err? ==> FirstComplaint(params, plan) == Some(value.error)
    {
      assert plan[..step + 1][..step] == plan[..step];
      var text := ParamOr(params, ParamName(check.setting), "");
      if text != "" {
        if !Obeys(check.rule, text) {
          ComplaintStays(params, plan, step + 1);
          return Err(Complaint(check));
        }
        applied := applied[check.setting := text];
      }
      step := step + 1;
      return Ok(text);
    }
  }

  lemma CheckedIsApplied(params: Params)
    ensures GivenAmong(params, CHECKS) == Applied(params)
  {
    GivenAmongFacts(params, CHECKS);
    forall s | Given(params, s) != "" ensures s in GivenAmong(params, CHECKS) {
      var c := CheckOf(s);
    }
    SameSettings(params, GivenAmong(params, CHECKS));
  }

  lemma SameSettings(params: Params, m: map<Setting, string>)
    requires forall s :: s in m <==> Given(params, s) != ""
    requires forall s :: s in m ==> m[s] == Given(params, s)
    ensures m == Applied(params)
  {
  }

  lemma CheckOf(s: Setting) returns (c: Check)
    ensures c in CHECKS && c.setting == s
  {
    match s {
      case DsConfigDn => c := CHECKS[0];
      case CrlPeriodUnits => c := CHECKS[1];
      case CrlDeltaPeriodUnits => c := CHECKS[2];
      case CrlOverlapUnits => c := CHECKS[3];
      case ValidityPeriodUnits => c := CHECKS[4];
      case AuditFilter => c := CHECKS[5];
      case CrlPeriod => c := CHECKS[6];
      case CrlDeltaPeriod => c := CHECKS[7];
      case CrlOverlapPeriod => c := CHECKS[8];
      case ValidityPeriod => c := CHECKS[9];
    }
  }

  datatype Units = Units(dn: string, crl: string, delta: string, overlap: string, validity: string, audit: string)

  datatype Periods = Periods(crl: string, delta: string, overlap: string, validity: string)

  method ReadCrlUnits(reader: SettingsReader) returns (r: Result<(string, string, string), CommandError>)
    requires reader.Valid() && reader.step == 0 && reader.plan == CHECKS
    modifies reader
    ensures r.Err? ==> FirstComplaint(reader.params, CHECKS) == Some(r.error)
    ensures r.Ok? ==> reader.Valid() && reader.step == 3
    ensures r.Ok? ==> r.value == (Given(reader.params, DsConfigDn), Given(reader.params, CrlPeriodUnits),
                                  Given(reader.params, CrlDeltaPeriodUnits))
  {
    var dn := reader.Next(Check(DsConfigDn, Dn));
    if dn.Err? { return Err(dn.error); }
    var crl := reader.Next(Check(CrlPeriodUnits, Unit(9999)));
    if crl.Err? { return Err(crl.error); }
    var delta := reader.Next(Check(CrlDeltaPeriodUnits, Unit(9999)));
    if delta.Err? { return Err(delta.error); }
    return Ok((dn.value, crl.value, delta.value));
  }

  method ReadUnits(reader: SettingsReader) returns (r: Result<Units, CommandError>)
    requires reader.Valid() && reader.step == 0 && reader.plan == CHECKS
    modifies reader
    ensures r.Err? ==> FirstComplaint(reader.params, CHECKS) == Some(r.error)
    ensures r.Ok? ==> reader.Valid() && reader.step == 6
    ensures r.Ok? ==> r.value == Units(
        Given(reader.params, DsConfigDn), Given(reader.params, CrlPeriodUnits),
        Given(reader.params, CrlDeltaPeriodUnits), Given(reader.params, CrlOverlapUnits),
        Given(reader.params, ValidityPeriodUnits), Given(reader.params, AuditFilter))
  {
    var first := ReadCrlUnits(reader);
    if first.Err? { return Err(first.error); }
    var overlap := reader.Next(Check(CrlOverlapUnits, Unit(9999)));
    if overlap.Err? { return Err(overlap.error); }
    var validity := reader.Next(Check(ValidityPeriodUnits, Unit(9999)));
    if validity.Err? { return Err(validity.error); }
    var audit := reader.Next(Check(AuditFilter, Unit(127)));
    if audit.Err? { return Err(audit.error); }
    var (dn, crl, delta) := first.value;
    return Ok(Units(dn, crl, delta, overlap.value, validity.value, audit.value));
  }

  method ReadPeriods(reader: SettingsReader) returns (r: Result<Periods, CommandError>)
    requires reader.Valid() && reader.step == 6 && reader.plan == CHECKS
    modifies reader
    ensures r.Err? ==> FirstComplaint(reader.params, CHECKS) == Some(r.error)
    ensures r.Ok? ==> reader.Valid() && reader.step == 10
    ensures r.Ok? ==> r.value == Periods(
        Given(reader.params, CrlPeriod), Given(reader.params, CrlDeltaPeriod),
        Given(reader.params, CrlOverlapPeriod), Given(reader.params, ValidityPeriod))
  {
    var crl := reader.Next(Check(CrlPeriod, Period));
    if crl.Err? { return Err(crl.error); }
    var delta := reader.Next(Check(CrlDeltaPeriod, Period));
    if delta.Err? { return Err(delta.error); }
    var overlap := reader.Next(Check(CrlOverlapPeriod, Period));
    if overlap.Err? { return Err(overlap.error); }
    var validity := reader.Next(Check(ValidityPeriod, Period));
    if validity.Err? { return Err(validity.error); }
    return Ok(Periods(crl.value, delta.value, overlap.value, validity.value));
  }

  /** Validate, collecting the applied map and the positional arguments. */
  method ReadSettings(params: Params)
    returns (r: Result<(map<Setting, string>, seq<string>), CommandError>)
    ensures r.Err? ==> Validate(params) == Err(r.error)
    ensures r.Ok? ==> Validate(params) == Ok(r.value.0) && r.value.1 == Arguments(params)
  {
    var reader := new SettingsReader(params, CHECKS);
    var units := ReadUnits(reader);
    if units.Err? { return Err(units.error); }
    var periods := ReadPeriods(reader);
    if periods.Err? { return Err(periods.error); }
    assert reader.plan[..10] == reader.plan;
    CheckedIsApplied(params);
    if reader.applied == map[] {
      return Err(MissingParam("at least one CA setting"));
    }
    ArgumentsSpelled(params, ARGUMENT_ORDER);
    var u, p := units.value, periods.value;
    return Ok((reader.applied,
               [u.dn, u.crl, p.crl, u.delta, p.delta, u.overlap, p.overlap, u.validity, p.validity, u.audit]));
  }

  lemma ArgumentsSpelled(params: Params, order: seq<Setting>)
    requires |order| == 10
    ensures ArgumentsIn(params, order) ==
      [Given(params, order[0]), Given(params, order[1]), Given(params, order[2]), Given(params, order[3]),
       Given(params, order[4]), Given(params, order[5]), Given(params, order[6]), Given(params, order[7]),
       Given(params, order[8]), Given(params, order[9])]
  {
  }

  // ---------- the script ----------

  /** The script's parameters, in the order of its param() block. */
  const ARGUMENT_ORDER: seq<Setting> :=
    [DsConfigDn, CrlPeriodUnits, CrlPeriod, CrlDeltaPeriodUnits, CrlDeltaPeriod,
     CrlOverlapUnits, CrlOverlapPeriod, ValidityPeriodUnits, ValidityPeriod, AuditFilter]

  function ArgumentsIn(params: Params, order: seq<Setting>): (args: seq<string>)
    ensures |args| == |order|
    ensures forall i :: 0 <= i < |order| ==> args[i] == Given(params, order[i])
  {
    seq(|order|, i requires 0 <= i < |order| => Given(params, order[i]))
  }

  function Arguments(params: Params): seq<string> { ArgumentsIn(params, ARGUMENT_ORDER) }

  // ---------- the registry ----------

  datatype RegValue = Dword(n: nat) | Sz(text: string)

  type Hive = map<string, RegValue>

  function At(reg: Hive, path: string): Option<RegValue> {
    if path in reg then Some(reg[path]) else None
  }

  /** Bitwise or. */
  function Or(a: nat, b: nat): nat {
    if a == 0 && b == 0 then 0
    else 2 * Or(a / 2, b / 2) + if a % 2 == 1 || b % 2 == 1 then 1 else 0
  }

  lemma {:induction false} OrZero(b: nat)
    ensures Or(0, b) == b
  {
    if b > 0 { OrZero(b / 2); }
  }

  lemma {:induction false} OrAgain(a: nat, b: nat)
    ensures Or(Or(a, b), b) == Or(a, b)
  {
    if a > 0 || b > 0 {
      OrAgain(a / 2, b / 2);
      assert Or(a, b) / 2 == Or(a / 2, b / 2);
      assert Or(a, b) % 2 == if a % 2 == 1 || b % 2 == 1 then 1 else 0;
    }
  }

  function Bits(value: Option<RegValue>): nat {
    match value case Some(Dword(n)) => n case _ => 0
  }

  function NumberOf(text: string): Option<nat> { ParseUnsigned(text, 0xFFFF_FFFF) }

  /** Numeric text that starts with a plus sign. */
  predicate Signed(text: string) { NumberOf(text).Some? && text[0] == '+' }

  /** What the text says the value is. */
  function Denoted(text: string): RegValue {
    match NumberOf(text) case Some(n) => Dword(n) case None => Sz(text)
  }

  /** `certutil -setreg`: a number with a plus sign sets bits in the old value,
      everything else replaces it. */
  function SetReg(was: Option<RegValue>, text: string): RegValue {
    if Signed(text) then Dword(Or(Bits(was), NumberOf(text).value)) else Denoted(text)
  }

  lemma SetRegAgain(was: Option<RegValue>, text: string)
    ensures SetReg(Some(SetReg(was, text)), text) == SetReg(was, text)
  {
    if Signed(text) { OrAgain(Bits(was), NumberOf(text).value); }
  }

  /** Each non-empty argument sets the registry value of its position. */
  function ScriptWrites(order: seq<Setting>, args: seq<string>, reg: Hive): Hive
    requires |args| == |order|
  {
    if order == [] then reg
    else
      var n := |order| - 1;
      var before := ScriptWrites(order[..n], args[..n], reg);
      var path := RegistryPath(order[n]);
      if args[n] == "" then before else before[path := SetReg(At(before, path), args[n])]
  }

  /** The registry image of an applied map: every value as reported. */
  function Image(applied: map<Setting, string>): (m: Hive)
    ensures forall s :: s in applied ==> RegistryPath(s) in m && m[RegistryPath(s)] == Denoted(applied[s])
    ensures forall path :: path in m ==> exists s :: s in applied && RegistryPath(s) == path
  {
    assert forall s, t :: RegistryPath(s) == RegistryPath(t) ==> s == t by {
      forall s, t ensures RegistryPath(s) == RegistryPath(t) ==> s == t { PathsAreDistinct(s, t); }
    }
    map s | s in applied :: RegistryPath(s) := Denoted(applied[s])
  }

  /** What setting an applied map does to each value it names. */
  function Effects(applied: map<Setting, string>, reg: Hive): (m: Hive)
    ensures forall s :: s in applied ==>
      RegistryPath(s) in m && m[RegistryPath(s)] == SetReg(At(reg, RegistryPath(s)), applied[s])
    ensures forall path :: path in m ==> exists s :: s in applied && RegistryPath(s) == path
  {
    assert forall s, t :: RegistryPath(s) == RegistryPath(t) ==> s == t by {
      forall s, t ensures RegistryPath(s) == RegistryPath(t) ==> s == t { PathsAreDistinct(s, t); }
    }
    map s | s in applied :: RegistryPath(s) := SetReg(At(reg, RegistryPath(s)), applied[s])
  }

  /** The place of each setting among the arguments. */
  function Position(s: Setting): nat {
    match s
    case DsConfigDn => 0
    case CrlPeriodUnits => 1
    case CrlPeriod => 2
    case CrlDeltaPeriodUnits => 3
    case CrlDeltaPeriod => 4
    case CrlOverlapUnits => 5
    case CrlOverlapPeriod => 6
    case ValidityPeriodUnits => 7
    case ValidityPeriod => 8
    case AuditFilter => 9
  }

  ghost predicate InPlace(order: seq<Setting>) {
    forall i :: 0 <= i < |order| ==> Position(order[i]) == i
  }

  lemma EverySettingIsAnArgument(s: Setting)
    ensures InPlace(ARGUMENT_ORDER) && Position(s) < |ARGUMENT_ORDER| && ARGUMENT_ORDER[Position(s)] == s
  {
  }

  /** Values whose setting is not given keep what they had. */
  lemma {:induction false} ScriptLeaves(params: Params, order: seq<Setting>, reg: Hive, path: string)
    requires forall s :: s in order && Given(params, s) != "" ==> RegistryPath(s) != path
    ensures At(ScriptWrites(order, ArgumentsIn(params, order), reg), path) == At(reg, path)
  {
    if order != [] {
      var n := |order| - 1;
      assert ArgumentsIn(params, order)[..n] == ArgumentsIn(params, order[..n]);
      assert order[n] in order;
      ScriptLeaves(params, order[..n], reg, path);
    }
  }

  lemma OthersElsewhere(order: seq<Setting>, s: Setting)
    requires InPlace(order) && Position(s) == |order|
    ensures forall t :: t in order ==> RegistryPath(t) != RegistryPath(s)
  {
    forall t | t in order ensures RegistryPath(t) != RegistryPath(s) {
      var i :| 0 <= i < |order| && order[i] == t;
      PathsAreDistinct(s, t);
    }
  }

  /** The value of a given setting is set once, from what was there before. */
  lemma {:induction false} ScriptSets(params: Params, order: seq<Setting>, reg: Hive, s: Setting)
    requires InPlace(order) && Position(s) < |order| && order[Position(s)] == s && Given(params, s) != ""
    ensures var path := RegistryPath(s);
            At(ScriptWrites(order, ArgumentsIn(params, order), reg), path)
              == Some(SetReg(At(reg, path), Given(params, s)))
  {
    var n := |order| - 1;
    var front := order[..n];
    assert ArgumentsIn(params, order)[..n] == ArgumentsIn(params, front);
    assert InPlace(front);
    if Position(s) == n {
      OthersElsewhere(front, s);
      ScriptLeaves(params, front, reg, RegistryPath(s));
    } else {
      assert front[Position(s)] == s;
      ScriptSets(params, front, reg, s);
      PathsAreDistinct(s, order[n]);
    }
  }

  /** The registry after the script, for every path. */
  lemma ScriptAt(params: Params, reg: Hive, path: string)
    ensures var once := ScriptWrites(ARGUMENT_ORDER, Arguments(params), reg);
            At(once, path) == At(reg + Effects(Applied(params), reg), path)
  {
    var effects := Effects(Applied(params), reg);
    if path in effects {
      var s :| s in Applied(params) && RegistryPath(s) == path;
      EverySettingIsAnArgument(s);
      ScriptSets(params, ARGUMENT_ORDER, reg, s);
    } else {
      forall s | Given(params, s) != "" ensures RegistryPath(s) != path {
        assert s in Applied(params);
      }
      ScriptLeaves(params, ARGUMENT_ORDER, reg, path);
    }
  }

  lemma SameHive(a: Hive, b: Hive)
    requires forall path :: At(a, path) == At(b, path)
    ensures a == b
  {
    forall path ensures path in a <==> path in b { assert At(a, path) == At(b, path); }
    forall path | path in a ensures a[path] == b[path] { assert At(a, path) == At(b, path); }
  }

  lemma ScriptEffect(params: Params, reg: Hive)
    ensures ScriptWrites(ARGUMENT_ORDER, Arguments(params), reg) == reg + Effects(Applied(params), reg)
  {
    var once := ScriptWrites(ARGUMENT_ORDER, Arguments(params), reg);
    var all := reg + Effects(Applied(params), reg);
    forall path ensures At(once, path) == At(all, path) { ScriptAt(params, reg, path); }
    SameHive(once, all);
  }

  /** Setting the value leaves what the text says: no plus sign, or the bits that
      were set before are among those of the number. */
  ghost predicate Overwrites(reg: Hive, s: Setting, text: string) {
    Signed(text) ==> Or(Bits(At(reg, RegistryPath(s))), NumberOf(text).value) == NumberOf(text).value
  }

  lemma EffectsAreImage(applied: map<Setting, string>, reg: Hive)
    ensures reg + Effects(applied, reg) == reg + Image(applied) <==>
      forall s :: s in applied ==> Overwrites(reg, s, applied[s])
  {
    var a, b := reg + Effects(applied, reg), reg + Image(applied);
    if a == b {
      forall s | s in applied ensures Overwrites(reg, s, applied[s]) {
        assert a[RegistryPath(s)] == b[RegistryPath(s)];
        SetsWhatItSays(reg, s, applied[s]);
      }
    }
    if forall s :: s in applied ==> Overwrites(reg, s, applied[s]) {
      forall path ensures At(a, path) == At(b, path) { EffectIsImage(applied, reg, path); }
      SameHive(a, b);
    }
  }

  lemma SetsWhatItSays(reg: Hive, s: Setting, text: string)
    ensures SetReg(At(reg, RegistryPath(s)), text) == Denoted(text) <==> Overwrites(reg, s, text)
  {
  }

  lemma EffectIsImage(applied: map<Setting, string>, reg: Hive, path: string)
    requires forall s :: s in applied ==> Overwrites(reg, s, applied[s])
    ensures At(reg + Effects(applied, reg), path) == At(reg + Image(applied), path)
  {
    if path in Effects(applied, reg) || path in Image(applied) {
      var s :| s in applied && RegistryPath(s) == path;
      SetsWhatItSays(reg, s, applied[s]);
    }
  }

  lemma EffectsAgain(applied: map<Setting, string>, reg: Hive)
    ensures var once := reg + Effects(applied, reg);
            once + Effects(applied, once) == once
  {
    var once := reg + Effects(applied, reg);
    var twice := once + Effects(applied, once);
    forall path ensures At(twice, path) == At(once, path) {
      if path in Effects(applied, once) {
        var s :| s in applied && RegistryPath(s) == path;
        SetRegAgain(At(reg, path), applied[s]);
      }
    }
    SameHive(twice, once);
  }

  /** The values named by what is reported as applied are set and nothing else is
      touched; doing it twice changes nothing more. The registry then says what is
      reported if and only if no number with a plus sign meets other bits. */
  lemma RegistryMatchesReport(params: Params, reg: Hive)
    ensures var applied := Applied(params);
            var once := ScriptWrites(ARGUMENT_ORDER, Arguments(params), reg);
            && once == reg + Effects(applied, reg)
            && (once == reg + Image(applied) <==> forall s :: s in applied ==> Overwrites(reg, s, applied[s]))
            && ScriptWrites(ARGUMENT_ORDER, Arguments(params), once) == once
  {
    ScriptEffect(params, reg);
    EffectsAreImage(Applied(params), reg);
    ScriptEffect(params, reg + Effects(Applied(params), reg));
    EffectsAgain(Applied(params), reg);
  }

  /** Such an input: "+5" is accepted and reported, and turns 2 into 7. */
  lemma PlusAddsBits(params: Params, reg: Hive)
    requires params == map[ParamName(CrlPeriodUnits) := "+5"]
    requires At(reg, RegistryPath(CrlPeriodUnits)) == Some(Dword(2))
    ensures Validate(params) == Ok(map[CrlPeriodUnits := "+5"])
    ensures ScriptWrites(ARGUMENT_ORDER, Arguments(params), reg) == reg[RegistryPath(CrlPeriodUnits) := Dword(7)]
    ensures Image(Applied(params))[RegistryPath(CrlPeriodUnits)] == Dword(5)
  {
    OnlyOneGiven(params, CrlPeriodUnits, "+5");
    PlusFive();
    PlusFiveIsAccepted(params);
    ScriptEffect(params, reg);
    TwoOrFive();
    OneEffect(CrlPeriodUnits, "+5", reg);
  }

  lemma TwoOrFive()
    ensures Or(2, 5) == 7
  {
    assert Or(0, 1) == 1 && Or(1, 2) == 3;
  }

  lemma OneEffect(s: Setting, text: string, reg: Hive)
    ensures reg + Effects(map[s := text], reg) == reg[RegistryPath(s) := SetReg(At(reg, RegistryPath(s)), text)]
  {
    SameHive(reg + Effects(map[s := text], reg), reg[RegistryPath(s) := SetReg(At(reg, RegistryPath(s)), text)]);
  }

  lemma PlusFiveIsAccepted(params: Params)
    requires forall t :: Given(params, t) == if t == CrlPeriodUnits then "+5" else ""
    ensures Validate(params).Ok? && Validate(params).value == Applied(params)
  {
    PlusFive();
    forall c | c in CHECKS ensures Acceptable(params, c) {
      if c.setting == CrlPeriodUnits {
        UnitCheck(c);
      }
    }
    assert Given(params, CrlPeriodUnits) != "";
    AcceptedExactlyWhen(params);
  }

  lemma OnlyOneGiven(params: Params, s: Setting, text: string)
    requires params == map[ParamName(s) := text] && text != ""
    ensures forall t :: Given(params, t) == if t == s then text else ""
    ensures Applied(params) == map[s := text]
  {
    forall t ensures Given(params, t) == if t == s then text else "" { NamesAreDistinct(s, t); }
  }

  lemma PlusFive()
    ensures ParseUnsigned("+5", 9999) == Some(5) && Signed("+5") && NumberOf("+5") == Some(5)
  {
    var digits := "+5"[1..];
    assert digits == "5" && digits[..0] == "";
    assert AllDigits(digits) && DigitsValue(digits) == 5;
  }

  lemma UnitCheck(c: Check)
    requires c in CHECKS && c.setting == CrlPeriodUnits
    ensures c.rule == Unit(9999)
  {
  }

  /** Accepted exactly when something is given and everything given is valid. */
  lemma AcceptedExactlyWhen(params: Params)
    ensures Validate(params).Ok? <==>
      && (forall c :: c in CHECKS ==> Acceptable(params, c))
      && exists s :: Given(params, s) != ""
    ensures Validate(params).Ok? ==> Validate(params).value == Applied(params)
  {
    NoComplaint(params, CHECKS);
    if Applied(params) != map[] {
      var s :| s in Applied(params);
    }
  }

  /** What each setting may be, one by one. */
  predicate Proper(s: Setting, text: string) {
    match s
    case DsConfigDn =>
      && "CN=Configuration,DC=" <= text && |text| <= 200
      && forall c :: c in text ==> IsAsciiAlnum(c) || c in {'=', ',', '.', '-'}
    case CrlPeriodUnits | CrlDeltaPeriodUnits | CrlOverlapUnits | ValidityPeriodUnits =>
      ParseUnsigned(text, 9999).Some?
    case AuditFilter => ParseUnsigned(text, 127).Some?
    case CrlPeriod | CrlDeltaPeriod | CrlOverlapPeriod | ValidityPeriod =>
      text in {"Hours", "Days", "Weeks", "Months", "Years"}
  }

  lemma RuleIsProper(c: Check, text: string)
    requires c in CHECKS
    ensures Obeys(c.rule, text) <==> Proper(c.setting, text)
  {
    match c.rule {
      case Dn => DnIsProper(text);
      case Unit(max) =>
      case Period =>
        assert PERIODS[0] in PERIODS && PERIODS[1] in PERIODS && PERIODS[2] in PERIODS
            && PERIODS[3] in PERIODS && PERIODS[4] in PERIODS;
    }
  }

  lemma DnIsProper(text: string)
    ensures ValidDn(text) <==> Proper(DsConfigDn, text)
  {
    if forall c :: c in text ==> IsAsciiAlnum(c) || c in {'=', ',', '.', '-'} {
      forall c | c in text ensures IsAscii(c) { assert IsAsciiAlnum(c) || c in {'=', ',', '.', '-'}; }
      AsciiBytes(text);
    }
    assert forall c :: c in "=,.-" <==> c in {'=', ',', '.', '-'};
  }

  /** A parameter map is accepted exactly when something is given and everything
      given is proper for its setting. */
  lemma AcceptedWhenProper(params: Params)
    ensures Validate(params).Ok? <==>
      && (forall s :: Given(params, s) == "" || Proper(s, Given(params, s)))
      && exists s :: Given(params, s) != ""
  {
    AcceptedExactlyWhen(params);
    if forall c :: c in CHECKS ==> Acceptable(params, c) {
      forall s ensures Given(params, s) == "" || Proper(s, Given(params, s)) {
        var c := CheckOf(s);
        RuleIsProper(c, Given(params, s));
      }
    }
    if forall s :: Given(params, s) == "" || Proper(s, Given(params, s)) {
      forall c | c in CHECKS ensures Acceptable(params, c) { RuleIsProper(c, Given(params, c.setting)); }
    }
  }

  /** The text after the key, letter by letter the parameter name up to case. */
  ghost predicate Names(path: string, param: string) {
    && |path| == |param| + 3 && path[..3] == "CA\\"
    && forall i :: 0 <= i < |param| ==> SameUpToCase(path[i + 3], param[i])
  }

  /** Registry value names are the parameter names, whose case does not matter to
      the registry, except that the overlap units are called overlap period units. */
  lemma RegistryNames(s: Setting)
    ensures s != CrlOverlapUnits ==> Names(RegistryPath(s), ParamName(s))
    ensures s == CrlOverlapUnits ==> RegistryPath(s) == "CA\\CRLOverlapPeriodUnits"
  {
    match s {
      case DsConfigDn => NamesDn();
      case CrlPeriodUnits => NamesCrlUnits();
      case CrlPeriod => NamesCrl();
      case CrlDeltaPeriodUnits => NamesDeltaUnits();
      case CrlDeltaPeriod => NamesDelta();
      case CrlOverlapUnits =>
      case CrlOverlapPeriod => NamesOverlap();
      case ValidityPeriodUnits => NamesValidityUnits();
      case ValidityPeriod => NamesValidity();
      case AuditFilter => NamesAudit();
    }
  }

  lemma NamesDn()
    ensures Names(RegistryPath(DsConfigDn), ParamName(DsConfigDn))
  {
  }

  lemma NamesCrlUnits()
    ensures Names(RegistryPath(CrlPeriodUnits), ParamName(CrlPeriodUnits))
  {
  }

  lemma NamesCrl()
    ensures Names(RegistryPath(CrlPeriod), ParamName(CrlPeriod))
  {
  }

  lemma NamesDeltaUnits()
    ensures Names(RegistryPath(CrlDeltaPeriodUnits), ParamName(CrlDeltaPeriodUnits))
  {
  }

  lemma NamesDelta()
    ensures Names(RegistryPath(CrlDeltaPeriod), ParamName(CrlDeltaPeriod))
  {
  }

  lemma NamesOverlap()
    ensures Names(RegistryPath(CrlOverlapPeriod), ParamName(CrlOverlapPeriod))
  {
  }

  lemma NamesValidityUnits()
    ensures Names(RegistryPath(ValidityPeriodUnits), ParamName(ValidityPeriodUnits))
  {
  }

  lemma NamesValidity()
    ensures Names(RegistryPath(ValidityPeriod), ParamName(ValidityPeriod))
  {
  }

  lemma NamesAudit()
    ensures Names(RegistryPath(AuditFilter), ParamName(AuditFilter))
  {
  }

  // ---------- handler ----------

  function Prepare(params: Params): Result<Job, CommandError> {
    match Validate(params)
    case Err(e) => Err(e)
    case Ok(_) => Ok(Job("applying CA settings", 30.0, Arguments(params)))
  }

  function Fields(applied: map<Setting, string>): map<string, Value> {
    assert forall s, t :: ParamName(s) == ParamName(t) ==> s == t by {
      forall s, t ensures ParamName(s) == ParamName(t) ==> s == t { NamesAreDistinct(s, t); }
    }
    map s | s in applied :: ParamName(s) := Str(applied[s])
  }

  function Finish(params: Params, output: Output): Result<Value, CommandError> {
    Ok(Obj(map["applied" := Obj(Fields(Applied(params)))]))
  }

  /** A result object reports exactly these settings with these texts. */
  ghost predicate Reports(result: Value, applied: map<Setting, string>) {
    && result.Obj? && "applied" in result.fields && result.fields["applied"].Obj?
    && var fields := result.fields["applied"].fields;
       && (forall name :: name in fields <==> exists s :: s in applied && ParamName(s) == name)
       && (forall s :: s in applied ==> fields[ParamName(s)] == Str(applied[s]))
  }

  lemma FinishReports(params: Params, output: Output)
    ensures Finish(params, output).Ok? && Reports(Finish(params, output).value, Applied(params))
  {
    forall s, t ensures ParamName(s) == ParamName(t) ==> s == t { NamesAreDistinct(s, t); }
    var fields := Fields(Applied(params));
    assert Finish(params, output).value.fields["applied"].fields == fields;
  }

  function CaConfigureSettings(): Handler {
    Staged("ca.configure_settings", VmProvision, Prepare, Finish)
  }

  lemma RefusedSettings(params: Params, reply: Reply)
    requires Validate(params).Err?
    ensures CaConfigureSettings().run(params, reply) == Execution([], [], Err(Validate(params).error))
  {
    StagedCases("ca.configure_settings", VmProvision, Prepare, Finish, params, reply);
  }

  lemma AcceptedSettings(params: Params, reply: Reply)
    requires Validate(params).Ok?
    ensures var ex := CaConfigureSettings().run(params, reply);
            && ex.calls == [Call("ca.configure_settings", Arguments(params))]
            && (!(reply.Ok? && reply.value.exitCode == 0) ==> ex.outcome.Err?)
            && (reply.Ok? && reply.value.exitCode == 0 ==> ex.outcome == Finish(params, reply.value))
  {
    StagedCases("ca.configure_settings", VmProvision, Prepare, Finish, params, reply);
  }

  lemma ReportedSettings(params: Params, reply: Reply)
    requires Validate(params).Ok?
    ensures var outcome := CaConfigureSettings().run(params, reply).outcome;
            && (outcome.Ok? <==> reply.Ok? && reply.value.exitCode == 0)
            && (outcome.Ok? ==> Reports(outcome.value, Validate(params).value))
  {
    AcceptedSettings(params, reply);
    AcceptedExactlyWhen(params);
    if reply.Ok? && reply.value.exitCode == 0 { FinishReports(params, reply.value); }
  }

  lemma WrittenSettings(params: Params, args: seq<string>, reg: Hive)
    requires Validate(params).Ok? && args == Arguments(params)
    ensures |args| == 10
    ensures ScriptWrites(ARGUMENT_ORDER, args, reg) == reg + Effects(Validate(params).value, reg)
  {
    AcceptedExactlyWhen(params);
    ScriptEffect(params, reg);
  }

  /** A refused parameter map reaches neither the sink nor the shell. An accepted
      one runs the script once, on arguments that set exactly the given settings;
      and when the script succeeds, exactly these are reported, each as given. */
  lemma SettingsRun(params: Params, reply: Reply, reg: Hive)
    ensures var ex := CaConfigureSettings().run(params, reply);
            && (Validate(params).Err? ==> ex == Execution([], [], Err(Validate(params).error)))
            && (Validate(params).Ok? ==>
                  && |ex.calls| == 1 && |ex.calls[0].args| == 10
                  && ScriptWrites(ARGUMENT_ORDER, ex.calls[0].args, reg) == reg + Effects(Validate(params).value, reg)
                  && (ex.outcome.Ok? <==> reply.Ok? && reply.value.exitCode == 0)
                  && (ex.outcome.Ok? ==> Reports(ex.outcome.value, Validate(params).value)))
  {
    if Validate(params).Err? {
      RefusedSettings(params, reply);
    } else {
      AcceptedSettings(params, reply);
      ReportedSettings(params, reply);
      WrittenSettings(params, Arguments(params), reg);
    }
  }
}
