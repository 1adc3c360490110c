/** The employee record the service works on (the `model.Employee` class, as a value). */
module Employees {
  import opened Dates
  import opened Decimals

  datatype Employee = Employee(name: string, role: string, birthDate: Date, salary: Decimal)
}
