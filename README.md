# Employee query and aggregation service, modelled in Dafny

This project models `EmployeeLocalService`, an in-memory employee service. The service holds
the employee list of a backing store and answers queries over it:

- grouping by role;
- filtering by a birth-date range;
- finding the senior (earliest-born) employee and the senior employee's age;
- sorting the store by name;
- counting each employee's salary in minimum wages;
- totalling the salaries.

Modules:

- `Outcomes`: `Option` (Java's `null`) and `Result` (a thrown exception).
- `Dates`: `java.time.LocalDate` as a subset type of valid calendar days. Also its `compareTo`,
  `isBefore` and `isAfter`, and the years component of `Period.between`, modelled from the
  arithmetic of `LocalDate.until`. That arithmetic counts months, moves one month toward zero
  when the day of month points the other way, and truncates to years.
- `Decimals`: `java.math.BigDecimal` as an unscaled integer plus a scale, with `add`,
  `multiply`, `compareTo` and `divide(divisor, RoundingMode.CEILING)`. That `divide` keeps the
  dividend's scale.
- `Seqs`: `stream().filter(p).collect(toList())` as `Filter`, and the subsequence order.
- `Names`: `String.compareTo`, the order sorting by name uses.
- `Employees`: the employee record (`name`, `role`, `birthDate`, `salary`).
- `Sorting`: the result of the stable `List.sort` by name. Java's sort is stable, so its result
  is determined: the permutation that is ordered by name and keeps equal names in their old
  order. `SortByName` builds it by insertion.
- `Service`: the class `EmployeeLocalService`, whose field `store` is the store's list, and
  the pure operations it uses.

Points where the code behaves differently from what its method names suggest, and the model follows the code:

- `sortEmployeesInAlphabeticOrder` sorts the store's own list, so the store's order changes.
  The method's contract says the new store is the sorted old store.
- `calculateMinimumSalaries` returns values at the salary's own scale, because
  `BigDecimal.divide(d, CEILING)` keeps the dividend's scale. A salary at scale 2 therefore
  gives hundredths: 5000.00 gives 4.13, not 5 (`Service.MinimumWageUnitsKeepsScale`).
- `filterByBirthDateRange` with the start after the end returns an empty list. It raises no
  error.

## Model

| member | source | states |
|---|---|---|
| `Service.EmployeeLocalService.constructor` | src/service/EmployeeLocalService.java:17 | the service's state is the store's employee list, which starts as given |
| `Service.EmployeeLocalService.GetAllEmployees` | src/service/EmployeeLocalService.java:19-21 | returns the store's current contents |
| `Service.GroupEmployeesByRole` | src/service/EmployeeLocalService.java:35-38 | the keys are exactly the roles that occur; each key's group is non-empty and is exactly the input's employees of that role, in input order |
| `Service.GroupsPartition` | src/service/EmployeeLocalService.java:35-38 | every employee is in the group of its own role and in no other; that group holds it as many times as the input does |
| `Seqs.Filter` | src/service/EmployeeLocalService.java:45-50 | the filtered list is no longer than its input |
| `Seqs.FilterCounts` | src/service/EmployeeLocalService.java:45-50 | exactly the elements that pass the filter are kept, each as many times as the input holds it |
| `Seqs.FilterIsSubsequence` | src/service/EmployeeLocalService.java:45-50 | the filter keeps the input order: its result is a subsequence of the input |
| `Seqs.FilterAppend` | src/service/EmployeeLocalService.java:45-50 | filtering a concatenation is concatenating the filtered parts |
| `Seqs.FilterNone` | src/service/EmployeeLocalService.java:45-50 | when nothing passes the filter, the result is empty |
| `Dates.IsBefore` | src/service/EmployeeLocalService.java:48 | `isBefore` holds exactly when the first date is strictly earlier in the calendar |
| `Dates.IsAfter` | src/service/EmployeeLocalService.java:48 | `isAfter` holds exactly when the first date is strictly later in the calendar |
| `Service.BornBetween` | src/service/EmployeeLocalService.java:46-49 | the filter's test holds exactly when start <= birth date <= end, both ends inclusive |
| `Dates.CompareTo` | src/service/EmployeeLocalService.java:48 | the date comparison orders dates as the calendar does; it returns zero only for equal dates |
| `Dates.NotAfterIsPrecedes` | src/service/EmployeeLocalService.java:48 | "not after" and "not before" are lexicographic order on (year, month, day); `a` before `b` is `b` after `a` |
| `Service.EmployeeLocalService.FilterByBirthDateRange` | src/service/EmployeeLocalService.java:41-51 | keeps exactly the stored employees with start <= birth date <= end, each as many times as stored; the result is a subsequence of the store; it is empty when start is after end |
| `Service.EmployeeLocalService.FilterSingleDay` | src/service/EmployeeLocalService.java:41-51 | a one-day range keeps exactly the employees born that day |
| `Service.SeniorIndex` | src/service/EmployeeLocalService.java:53-58 | in a non-empty list, an index whose birth date is not after any other; every earlier employee was born strictly later (first minimum) |
| `Service.EmployeeLocalService.GetSeniorEmployee` | src/service/EmployeeLocalService.java:53-58 | absent if and only if the store is empty; otherwise a stored employee born no later than any other, and the first such in store order |
| `Service.ThreeEmployeesSenior` | src/service/EmployeeLocalService.java:53-58 | in [Carol, Alice, Bob], Bob (born 1985) is the senior employee |
| `Service.EmployeeLocalService.CalculateSeniorAge` | src/service/EmployeeLocalService.java:60-67 | fails with "senior employee not found" if and only if the store is empty; otherwise the period years from the senior's birth date to today, which are the full years elapsed when that birth date is not after today; the result is >= 0 whenever some employee was born by today |
| `Dates.PeriodYears` | src/service/EmployeeLocalService.java:65-66 | the years of `Period.between`: never negative when start is not after end, never positive when start is after end |
| `Dates.TruncDiv` | src/service/EmployeeLocalService.java:65-66 | Java's `long` division inside `Period.between`, rounding toward zero: the quotient times the divisor lies within one divisor of the dividend, on the side of zero |
| `Dates.PeriodYearsWhole` | src/service/EmployeeLocalService.java:65-66 | when start is not after end, the period years are the year difference, less one before the anniversary, and never negative |
| `Dates.PeriodYearsSameDay` | src/service/EmployeeLocalService.java:65-66 | the period from a date to itself has no years |
| `Service.EmployeeLocalService.SortEmployeesInAlphabeticOrder` | src/service/EmployeeLocalService.java:69-73 | the store becomes its sorted old contents and is returned; it is ordered by name, a permutation of the old store, and the employees of each name keep their old order |
| `Sorting.SortByName` | src/service/EmployeeLocalService.java:71 | the list that the stable sort by name produces, with as many employees as before; the three lemmas below state what it is |
| `Sorting.SortByNameSorted` | src/service/EmployeeLocalService.java:71 | the sorted list is non-decreasing by `String.compareTo` on names |
| `Sorting.SortByNamePermutes` | src/service/EmployeeLocalService.java:71 | the sorted list is a permutation of the list |
| `Sorting.SortByNameStable` | src/service/EmployeeLocalService.java:71 | for every name, the employees of that name appear in the same order before and after sorting |
| `Sorting.InsertionPoint` | src/service/EmployeeLocalService.java:71 | the insertion point lies after the last employee whose name is not greater, and everything after it is greater |
| `Service.ThreeEmployeesSorted` | src/service/EmployeeLocalService.java:69-73 | [Carol, Alice, Bob] sorts to [Alice, Bob, Carol] |
| `Names.CompareTo` | src/service/EmployeeLocalService.java:71 | `String.compareTo`: zero exactly for equal strings; a prefix compares as the difference of the lengths |
| `Names.CompareToAntisymmetric` | src/service/EmployeeLocalService.java:71 | swapping the strings negates the comparison; only equal strings compare as zero |
| `Names.NameLeqTotal` | src/service/EmployeeLocalService.java:71 | any two names are ordered one way or the other |
| `Names.NameLeqTransitive` | src/service/EmployeeLocalService.java:71 | the name order is transitive |
| `Service.EmployeeLocalService.CalculateMinimumSalaries` | src/service/EmployeeLocalService.java:75-86 | the keys are exactly the stored names; each name maps to the minimum-wage count of the last stored employee of that name (later entries overwrite earlier ones) |
| `Service.LastWithNameExtend` | src/service/EmployeeLocalService.java:81-85 | after one more `put`, the new employee is the last of its name, and every other last occurrence is unchanged |
| `Decimals.CeilDiv` | src/service/EmployeeLocalService.java:83 | the quotient rounded toward positive infinity: the least q with q * d >= n |
| `Decimals.DivideCeiling` | src/service/EmployeeLocalService.java:83 | the quotient keeps the dividend's scale and is the least value at that scale whose product with the divisor reaches the dividend |
| `Service.MinimumWageUnits` | src/service/EmployeeLocalService.java:79-83 | the salary divided by 1212.00, rounded up: same scale as the salary, and the least unscaled value whose product with 1212 reaches the salary's unscaled value |
| `Service.MinimumWageUnitsIsCeiling` | src/service/EmployeeLocalService.java:79-83 | as decimals: the count times 1212.00 reaches the salary, and no smaller number at the salary's scale does |
| `Service.MinimumWageUnitsKeepsScale` | src/service/EmployeeLocalService.java:79-83 | 5000.00, 3000.00 and 6000.00 give 4.13, 2.48 and 4.96 |
| `Service.EmployeeLocalService.CalculateTotalSalary` | src/service/EmployeeLocalService.java:89-95 | the total's scale is the largest salary scale (0 for an empty store); at every scale at least that large, the total equals the sum of all stored salaries; an empty store gives `BigDecimal.ZERO` |
| `Decimals.Add` | src/service/EmployeeLocalService.java:93 | the sum is at the larger scale and is exact at every finer scale |
| `Service.SalarySumRescale` | src/service/EmployeeLocalService.java:91-94 | rescaling a salary sum rescales each of its terms |
| `Service.ThreeEmployeesTotal` | src/service/EmployeeLocalService.java:89-95 | 6000.00 + 5000.00 + 3000.00 totals 14000.00 at scale 2 |

The store is left unchanged by `GetAllEmployees`, `FilterByBirthDateRange`, `GetSeniorEmployee`,
`CalculateSeniorAge`, `CalculateMinimumSalaries` and `CalculateTotalSalary`. These are either
functions, which read the store and cannot change it, or methods with no `modifies` clause.
Only `SortEmployeesInAlphabeticOrder` may change the store, and its contract says how.

## Left out

- `deleteEmployeeByName` (lines 23-27): it only forwards to `MemoryDatabase.removePersonByName`, which is not part of this model. Whether it removes the first match or every match cannot be told.
- `increaseSalaryForAllEmployees` (lines 29-33): it takes a `double` percentage (floating point) and forwards to `MemoryDatabase.increaseSalaryForAllEmployees`, which is not part of this model.
- The console output (lines 25-26, 31-32) is I/O and feeds no result.
- Date parsing in `filterByBirthDateRange` (lines 42-43): `tools.StaticTools.dateFormater` is not part of this model. The filter takes the two dates already parsed, so the parse exception is not modelled.
- `LocalDate.now()` (line 65) reads the clock. `CalculateSeniorAge` takes today's date as a parameter instead.
- The initial contents of `MemoryDatabase` are not part of this model. The constructor takes them as a parameter.
- `HashMap` iteration order and the concrete `List`/`Map` classes that `Collectors.groupingBy` builds are not modelled. Results are Dafny `seq` and `map` values.
- Service.EmployeeLocalService.GetAllEmployees: the Java result is the store's live list, so a caller who changes it changes the store. The model returns the list's value and does not capture that aliasing.
- Service.EmployeeLocalService.SortEmployeesInAlphabeticOrder: the Java result is the store's live list too, so a caller who changes it changes the store. The model returns the sorted list's value and does not capture that aliasing.
- Sorting.SortByName: models the result of `List.sort`, not its TimSort steps. The result of a stable sort by a total preorder is unique, so the final store is the same.
- Names.CompareTo: compares Dafny characters (Unicode scalar values). Java compares UTF-16 code units, so the order differs only between characters above U+FFFF and characters from U+E000 to U+FFFF.
- Decimals.Decimal: the scale is a natural number. Java also allows negative scales, which nothing in the service creates.
- Dates.Date: the year is unbounded. `LocalDate` limits years to +/-999,999,999, and `Period` years to a Java `int`.
- A `null` name, role, birth date or salary makes the Java code throw `NullPointerException`. The model has no nulls.
- Concurrency: the service is used single-threaded and has no locking.
