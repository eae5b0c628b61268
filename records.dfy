/**
 * The records the PIM audit reads from the identity directory, the privileged
 * role allow-list and the policy constants.
 *
 * Every record field is read with a dictionary lookup that yields nothing when
 * the field is missing, so a field is an optional string.
 */
module Records {

  datatype Option<+T> = None | Some(value: T) {
    function GetOr(default: T): T {
      match this
      case Some(v) => v
      case None => default
    }
  }

  /** A text field of a directory record: absent, or present with its text. */
  type Field = Option<string>

  /** A field counts as set only when present and non-empty (Python truthiness). */
  predicate Truthy(f: Field) {
    f.Some? && f.value != ""
  }

  /** The join key (principalId, roleDefinitionId) shared by the three collections. */
  type Key = (Field, Field)

  /** A standing role assignment. */
  datatype RoleAssignment = RoleAssignment(
    principalId: Field,
    roleDefinitionId: Field,
    id: Field,
    createdDateTime: Field)
  {
    function JoinKey(): Key { (principalId, roleDefinitionId) }
  }

  /** A principal's right to activate a role. */
  datatype EligibilitySchedule = EligibilitySchedule(
    principalId: Field,
    roleDefinitionId: Field,
    id: Field,
    startDateTime: Field)
  {
    function JoinKey(): Key { (principalId, roleDefinitionId) }
  }

  /** One activation window of a role. */
  datatype ScheduleInstance = ScheduleInstance(
    principalId: Field,
    roleDefinitionId: Field,
    id: Field,
    startDateTime: Field,
    endDateTime: Field)
  {
    function JoinKey(): Key { (principalId, roleDefinitionId) }
  }

  /** An entry of the bulk role-definition listing. */
  datatype RoleDefinition = RoleDefinition(id: Field, displayName: Field)

  /** The role names whose holders are audited (exact string match). */
  const PRIV_ROLES: set<string> := {
    "Global Administrator",
    "Privileged Role Administrator",
    "Security Administrator",
    "Conditional Access Administrator",
    "Application Administrator",
    "Cloud Application Administrator",
    "Exchange Administrator",
    "SharePoint Administrator"
  }

  /** Only a label of the stale-eligibility metric; the stale rule uses WINDOW_DAYS. */
  const STALE_ELIGIBILITY_DAYS: nat := 90
  const MAX_ACTIVATION_HOURS: nat := 8
  const WINDOW_DAYS: nat := 30

  const SECONDS_PER_HOUR: nat := 3600
  const SECONDS_PER_DAY: nat := 86400
}
