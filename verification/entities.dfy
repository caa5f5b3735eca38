/** The records kept in browser storage (src/services/storageService.ts) and the
    seed data written on first use. Status, role and type fields are strings, as
    they are at run time; the constants below name the values the UI offers. */
module Entities {
  import opened Lists

  datatype Employee = Employee(
    id: string,
    account: string,      // email of the Account
    position: string,
    department: string,   // name of the Department
    hireDate: string,
    status: string)

  datatype Department = Department(name: string, description: string)

  datatype Account = Account(
    title: string,
    firstName: string,
    lastName: string,
    email: string,
    role: string,
    status: string)

  datatype TransferRecord = TransferRecord(
    id: string,
    employeeId: string,
    fromDepartment: string,
    toDepartment: string,
    date: string,
    status: string)

  datatype Item = Item(name: string, quantity: int)

  datatype Request = Request(
    id: string,
    requestType: string,
    employeeId: string,
    description: string,
    requestDate: string,
    items: seq<Item>,
    status: string)

  /** Whether a dialog creates a record or edits the selected one. */
  datatype Mode = Add | Edit

  const Pending := "Pending"
  const Approved := "Approved"
  const Disapproved := "Disapproved"
  const Active := "Active"

  const InitialAccounts: seq<Account> := [
    Account("Mr", "Admin", "User", "admin@example.com", "Admin", "Active"),
    Account("Mr", "Employee", "User", "employee@example.com", "Employee", "Active")
  ]

  const InitialEmployees: seq<Employee> := [
    Employee("EMP001", "admin@example.com", "Developer", "Engineering", "2025-01-01", "Active"),
    Employee("EMP002", "user@example.com", "Designer", "Marketing", "2025-02-01", "Active")
  ]

  const InitialDepartments: seq<Department> := [
    Department("Engineering", "Software development team"),
    Department("Marketing", "Marketing and communications team"),
    Department("Human Resources", "HR management and recruitment")
  ]

  const InitialRequests: seq<Request> := [
    Request("REQ001", "Equipment", "EMP002", "Need laptop for development work", "2024-03-15",
            [Item("Laptop", 1)], "Pending"),
    Request("REQ002", "Leave", "EMP001", "Annual vacation", "2024-03-10",
            [Item("Vacation", 5)], "Approved")
  ]

  /** `s || fallback` on a string: the empty string is the only falsy one. */
  function OrElse(s: string, fallback: string): string
  {
    if s == "" then fallback else s
  }

  /** Whether a form error is shown: `!!errors[field]` (set and non-empty). */
  predicate Shown(e: Option<string>)
  {
    e.Some? && e.value != ""
  }

  /** Predicates passed to `filter`/`findIndex` on each collection. */
  function RequestHasId(id: string): Request -> bool { (r: Request) => r.id == id }

  function RequestOtherId(id: string): Request -> bool { (r: Request) => r.id != id }

  function InDepartment(name: string): Employee -> bool { (e: Employee) => e.department == name }

  function OfEmployeeTransfer(employeeId: string): TransferRecord -> bool { (t: TransferRecord) => t.employeeId == employeeId }

  function OfEmployeeRequest(employeeId: string): Request -> bool { (r: Request) => r.employeeId == employeeId }

  function EmployeeHasId(id: string): Employee -> bool { (e: Employee) => e.id == id }

  function EmployeeOtherId(id: string): Employee -> bool { (e: Employee) => e.id != id }

  function AccountHasEmail(email: string): Account -> bool { (a: Account) => a.email == email }

  function AccountOtherEmail(email: string): Account -> bool { (a: Account) => a.email != email }

  function DepartmentOtherName(name: string): Department -> bool { (d: Department) => d.name != name }

  function DepartmentNamed(name: string): Department -> bool { (d: Department) => d.name == name }

  /** Replacements passed to `map`: records matching the key become `replacement`, the others stay. */
  function ReplacingEmployee(id: string, replacement: Employee): Employee -> Employee
  {
    (e: Employee) => if e.id == id then replacement else e
  }

  /** `d.name === selectedDepartment?.name`: with nothing selected no name matches. */
  function ReplacingDepartment(name: Option<string>, replacement: Department): Department -> Department
  {
    (d: Department) => if name == Some(d.name) then replacement else d
  }

  /** `a.email === selectedAccount?.email`: with nothing selected no email matches. */
  function ReplacingAccount(email: Option<string>, replacement: Account): Account -> Account
  {
    (a: Account) => if email == Some(a.email) then replacement else a
  }

  /** `{ ...transfer, status }` for the transfers carrying the id. */
  function WithTransferStatus(id: string, status: string): TransferRecord -> TransferRecord
  {
    (t: TransferRecord) => if t.id == id then t.(status := status) else t
  }
}
