/** The closed set of per-project roles and the fixed table of what each
    role may do. */
module Roles {

  import opened Common

  datatype Role = Manager | TeamLead | Developer | Tester

  /** The five permissions a role answers for (the columns of the table). */
  datatype Capability = ManageTickets | ExecuteTickets | CreateBugReports | FixBugs | TestBugs

  /** The capability table: one row per role. */
  function Grants(r: Role, c: Capability): bool {
    match r
    case Manager => (
      match c
      case ManageTickets => true
      case ExecuteTickets => false
      case CreateBugReports => false
      case FixBugs => false
      case TestBugs => false)
    case TeamLead => (
      match c
      case ManageTickets => true
      case ExecuteTickets => true
      case CreateBugReports => true
      case FixBugs => true
      case TestBugs => false)
    case Developer => (
      match c
      case ManageTickets => false
      case ExecuteTickets => true
      case CreateBugReports => true
      case FixBugs => true
      case TestBugs => false)
    case Tester => (
      match c
      case ManageTickets => false
      case ExecuteTickets => false
      case CreateBugReports => true
      case FixBugs => false
      case TestBugs => true)
  }

  /** A possibly missing role grants a capability only when it is present and
      its row grants it; a user without a membership may do nothing. */
  predicate Permits(role: Option<Role>, c: Capability) {
    match role
    case None => false
    case Some(r) => Grants(r, c)
  }

  /** The Manager row: it manages tickets and nothing else. */
  lemma ManagerRow(c: Capability)
    ensures Grants(Manager, c) <==> c == ManageTickets
  {
  }

  /** The TeamLead row: everything except testing bugs. */
  lemma TeamLeadRow(c: Capability)
    ensures Grants(TeamLead, c) <==> c != TestBugs
  {
  }

  /** The Developer row: executes tickets, reports and fixes bugs. */
  lemma DeveloperRow(c: Capability)
    ensures Grants(Developer, c) <==> c == ExecuteTickets || c == CreateBugReports || c == FixBugs
  {
  }

  /** The Tester row: reports and tests bugs. */
  lemma TesterRow(c: Capability)
    ensures Grants(Tester, c) <==> c == CreateBugReports || c == TestBugs
  {
  }

  /** Reading the table by column. */
  lemma ColumnsOfTheTable(r: Role)
    ensures Grants(r, ManageTickets) <==> r == Manager || r == TeamLead
    ensures Grants(r, ExecuteTickets) <==> r == TeamLead || r == Developer
    ensures Grants(r, CreateBugReports) <==> r != Manager
    ensures Grants(r, FixBugs) <==> r == TeamLead || r == Developer
    ensures Grants(r, TestBugs) <==> r == Tester
  {
  }

  /** No role may both fix and test bugs, and whoever executes tickets may fix bugs. */
  lemma SeparationOfDuties(r: Role)
    ensures !(Grants(r, FixBugs) && Grants(r, TestBugs))
    ensures Grants(r, ExecuteTickets) <==> Grants(r, FixBugs)
    ensures Grants(r, FixBugs) ==> Grants(r, CreateBugReports)
  {
  }
}
