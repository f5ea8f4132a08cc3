/** The navigation menu of the app sidebar: the sections of every role the user holds, in the
    order admin, HR, employee, under a single Dashboard entry that leads to the first of them. */
module Sidebar {
  import opened Basics

  /** A menu entry: its title and the name of the route it links to. */
  datatype NavItem = NavItem(title: string, route: string)

  const DashboardTitle: string := "Dashboard"

  const AdminSection: seq<NavItem> := [
    NavItem(DashboardTitle, "admin.dashboard"),
    NavItem("Users", "admin.users.index"),
    NavItem("Departments", "admin.departments.index"),
    NavItem("QR Display", "admin.qr-display"),
    NavItem("Attendance", "admin.attendance.index")]
  const HrDashboard: NavItem := NavItem(DashboardTitle, "hr.dashboard")
  const HrSection: seq<NavItem> := [NavItem("HR Attendance", "hr.attendance.index"), NavItem("Recap", "hr.recap")]
  const EmployeeDashboard: NavItem := NavItem(DashboardTitle, "employee.dashboard")
  const EmployeeSection: seq<NavItem> := [NavItem("Scan QR", "employee.scan"), NavItem("History", "employee.history")]

  /** hasRole: the user's role list, when it is loaded, names the role. */
  function HasRole(roles: Option<seq<string>>, roleName: string): (b: bool)
    ensures b <==> roles.Some? && roleName in roles.value
  {
    match roles
    case None => false
    case Some(names) => exists i :: 0 <= i < |names| && names[i] == roleName
  }

  function Count(b: bool, n: nat): nat { if b then n else 0 }

  /** getMenuItems */
  method GetMenuItems(roles: Option<seq<string>>) returns (menuItems: seq<NavItem>)
    ensures var admin, hr, user := HasRole(roles, "admin"), HasRole(roles, "hr"), HasRole(roles, "user");
      && |menuItems| == Count(admin, 5) + Count(hr, Count(!admin, 1) + 2) + Count(user, Count(!admin && !hr, 1) + 2)
      && (menuItems == [] <==> !admin && !hr && !user)
      && (menuItems != [] ==> menuItems[0].title == DashboardTitle)
      && (forall i :: 0 < i < |menuItems| ==> menuItems[i].title != DashboardTitle)
      && (admin ==> menuItems[0].route == "admin.dashboard")
      && (!admin && hr ==> menuItems[0].route == "hr.dashboard")
      && (!admin && !hr && user ==> menuItems[0].route == "employee.dashboard")
      && (admin ==> menuItems[..5] == AdminSection)
      && (hr ==> var at := if admin then 5 else 1; menuItems[at..at + 2] == HrSection)
      && (user ==> menuItems[|menuItems| - 2..] == EmployeeSection)
  {
    menuItems := [];
    if HasRole(roles, "admin") {
      menuItems := menuItems + AdminSection;
    }
    if HasRole(roles, "hr") {
      if |menuItems| == 0 {
        menuItems := menuItems + [HrDashboard];
      }
      menuItems := menuItems + HrSection;
      assert menuItems[|menuItems| - 2..] == HrSection;
    }
    ghost var afterHr := menuItems;
    if HasRole(roles, "user") {
      if |menuItems| == 0 {
        menuItems := menuItems + [EmployeeDashboard];
      }
      menuItems := menuItems + EmployeeSection;
      if HasRole(roles, "hr") {
        assert menuItems[|afterHr| - 2..|afterHr|] == afterHr[|afterHr| - 2..];
      }
    }
  }
}
