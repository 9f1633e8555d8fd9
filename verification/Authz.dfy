/** Roles and the capabilities they hold. */
module Authz {
  datatype Capability =
    | VmList | VmRead | VmClone | VmUpdate | VmPower
    | VmDelete | VmProvision | ConfigGenerate | VmExecArbitrary | Deploy

  datatype Role = Operator | Guest

  const ALL: seq<Capability> :=
    [VmList, VmRead, VmClone, VmUpdate, VmPower,
     VmDelete, VmProvision, ConfigGenerate, VmExecArbitrary, Deploy]

  function Capabilities(role: Role): seq<Capability> {
    match role
    case Operator => ALL
    case Guest => [VmList, VmRead, VmClone, VmDelete, VmProvision, Deploy]
  }

  predicate Has(role: Role, cap: Capability) { cap in Capabilities(role) }

  lemma OperatorHasEverything(cap: Capability)
    ensures Has(Operator, cap)
  {
    match cap {
      case VmList => assert ALL[0] == cap;
      case VmRead => assert ALL[1] == cap;
      case VmClone => assert ALL[2] == cap;
      case VmUpdate => assert ALL[3] == cap;
      case VmPower => assert ALL[4] == cap;
      case VmDelete => assert ALL[5] == cap;
      case VmProvision => assert ALL[6] == cap;
      case ConfigGenerate => assert ALL[7] == cap;
      case VmExecArbitrary => assert ALL[8] == cap;
      case Deploy => assert ALL[9] == cap;
    }
  }

  /** The wording of `{:?}` for roles and capabilities, part of the refusal text. */
  function RoleName(role: Role): string {
    match role
    case Operator => "Operator"
    case Guest => "Guest"
  }

  function CapabilityName(cap: Capability): string {
    match cap
    case VmList => "VmList"
    case VmRead => "VmRead"
    case VmClone => "VmClone"
    case VmUpdate => "VmUpdate"
    case VmPower => "VmPower"
    case VmDelete => "VmDelete"
    case VmProvision => "VmProvision"
    case ConfigGenerate => "ConfigGenerate"
    case VmExecArbitrary => "VmExecArbitrary"
    case Deploy => "Deploy"
  }
}
