/**
 * `EmployeeLocalService`: queries and aggregates over the employee list of an in-memory store.
 * The operations that read only their argument are module-level functions; the ones that
 * read or reorder the store are members of the class, whose field `store` is that list.
 */
module Service {
  import opened Outcomes
  import opened Dates
  import opened Decimals
  import opened Seqs
  import opened Names
  import opened Employees
  import opened Sorting

  /** What `calculateSeniorAge` throws when there is no employee. */
  datatype ServiceError = SeniorEmployeeNotFound

  /** The minimum wage `new BigDecimal("1212.00")`: unscaled 121200 at scale 2. */
  const MinimumWage := Decimal(121200, 2)

  /** The employees holding `role`, in the order `es` has them. */
  function WithRole(es: seq<Employee>, role: string): seq<Employee>
  {
    Filter((e: Employee) => e.role == role, es)
  }

  /**
   * `groupEmployeesByRole`: `Collectors.groupingBy(Employee::getRole)`, which walks the list
   * and appends each employee to the list kept under its role, creating that list when the
   * role is first met.
   */
  function GroupEmployeesByRole(employees: seq<Employee>): (g: map<string, seq<Employee>>)
    ensures g.Keys == set e | e in employees :: e.role
    ensures forall r :: r in g ==> g[r] != [] && g[r] == WithRole(employees, r)
  {
    if employees == [] then map[]
    else
      var init, last := employees[..|employees| - 1], employees[|employees| - 1];
      var g := GroupEmployeesByRole(init);
      var g' := if last.role in g then g[last.role := g[last.role] + [last]] else g[last.role := [last]];
      GroupStep(employees, g, g');
      g'
  }

  /** Appending the list's last employee to the grouping of the rest groups the whole list. */
  lemma GroupStep(employees: seq<Employee>, g: map<string, seq<Employee>>, g': map<string, seq<Employee>>)
    requires employees != []
    requires g.Keys == set e | e in employees[..|employees| - 1] :: e.role
    requires forall r :: r in g ==> g[r] != [] && g[r] == WithRole(employees[..|employees| - 1], r)
    requires var last := employees[|employees| - 1];
      g' == if last.role in g then g[last.role := g[last.role] + [last]] else g[last.role := [last]]
    ensures g'.Keys == set e | e in employees :: e.role
    ensures forall r :: r in g' ==> g'[r] != [] && g'[r] == WithRole(employees, r)
  {
    var init, last := employees[..|employees| - 1], employees[|employees| - 1];
    assert employees == init + [last];
    RolesStep(init, last);
  }

  /**
   * One more employee: its role joins the set of roles, it joins the end of its own role's
   * list and no other, and a role not seen before had no employees.
   */
  lemma RolesStep(init: seq<Employee>, last: Employee)
    ensures (set e | e in init + [last] :: e.role) == (set e | e in init :: e.role) + {last.role}
    ensures forall r :: WithRole(init + [last], r) == WithRole(init, r) + (if last.role == r then [last] else [])
    ensures last.role !in (set e | e in init :: e.role) ==> WithRole(init, last.role) == []
  {
    var es := init + [last];
    var before, after := set e | e in init :: e.role, set e | e in es :: e.role;
    forall r | r in after
      ensures r in before + {last.role}
    {
      var e :| e in es && e.role == r;
      if e != last {
        assert e in init;
      }
    }
    forall r | r in before
      ensures r in after
    {
      var e :| e in init && e.role == r;
      assert e in es;
    }
    assert last in es;
    assert es[..|es| - 1] == init;
    if last.role !in (set e | e in init :: e.role) {
      forall i | 0 <= i < |init|
        ensures init[i].role != last.role
      {
        assert init[i] in init;
      }
      FilterNone((e: Employee) => e.role == last.role, init);
    }
  }

  /**
   * The groups partition the list: each employee lies in the group of its own role and in no
   * other, and that group holds it exactly as often as the list does.
   */
  lemma GroupsPartition(employees: seq<Employee>)
    ensures forall i :: 0 <= i < |employees| ==>
      employees[i].role in GroupEmployeesByRole(employees) && employees[i] in GroupEmployeesByRole(employees)[employees[i].role]
    ensures forall r, e :: r in GroupEmployeesByRole(employees) && e in GroupEmployeesByRole(employees)[r] ==> e.role == r
    ensures forall e: Employee :: e.role in GroupEmployeesByRole(employees) ==>
      multiset(GroupEmployeesByRole(employees)[e.role])[e] == multiset(employees)[e]
  {
    var g := GroupEmployeesByRole(employees);
    forall r | r in g
      ensures forall e :: e in g[r] <==> e in employees && e.role == r
      ensures forall e: Employee :: e.role == r ==> multiset(g[r])[e] == multiset(employees)[e]
    {
      FilterCounts((e: Employee) => e.role == r, employees);
    }
    forall i | 0 <= i < |employees|
      ensures employees[i].role in g && employees[i] in g[employees[i].role]
    {
      assert employees[i] in employees;
    }
  }

  /** `!d.isBefore(start) && !d.isAfter(end)`, the filter of `filterByBirthDateRange`: both ends inclusive. */
  predicate BornBetween(d: Date, start: Date, end: Date)
    ensures BornBetween(d, start, end) <==> Precedes(start, d) && Precedes(d, end)
  {
    !IsBefore(d, start) && !IsAfter(d, end)
  }

  /**
   * The index `Stream.min` settles on: it folds `BinaryOperator.minBy`, which keeps the
   * running minimum unless the next element compares strictly smaller.
   */
  function SeniorIndex(es: seq<Employee>): (k: nat)
    requires es != []
    ensures k < |es|
    ensures forall j :: 0 <= j < |es| ==> !IsAfter(es[k].birthDate, es[j].birthDate)
    ensures forall j :: 0 <= j < k ==> IsAfter(es[j].birthDate, es[k].birthDate)
  {
    if |es| == 1 then 0
    else
      var m := SeniorIndex(es[..|es| - 1]);
      if Dates.CompareTo(es[m].birthDate, es[|es| - 1].birthDate) <= 0 then m else |es| - 1
  }

  /** `MinimumWage` multiples of a salary, rounded up, at the salary's own scale. */
  function MinimumWageUnits(salary: Decimal): (v: Decimal)
    ensures v.scale == salary.scale
    ensures (v.unscaled - 1) * 1212 < salary.unscaled <= v.unscaled * 1212
  {
    assert Pow10(2) == 100;
    DivideCeiling(salary, MinimumWage)
  }

  /**
   * The minimum-wage count is the least number at the salary's scale that, times 1212.00,
   * reaches the salary.
   */
  lemma MinimumWageUnitsIsCeiling(salary: Decimal)
    ensures LessOrEqual(salary, Multiply(MinimumWageUnits(salary), MinimumWage))
    ensures forall w: Decimal :: w.scale == salary.scale && LessOrEqual(salary, Multiply(w, MinimumWage)) ==>
      MinimumWageUnits(salary).unscaled <= w.unscaled
  {
    var v := MinimumWageUnits(salary);
    var u, s := salary.unscaled, salary.scale;
    Pow10Add(s, 2);
    assert Pow10(2) == 100;
    forall w: Decimal | w.scale == s
      ensures LessOrEqual(salary, Multiply(w, MinimumWage)) <==> u <= w.unscaled * 1212
    {
      calc {
        LessOrEqual(salary, Multiply(w, MinimumWage));
        u * Pow10(s + 2) <= (w.unscaled * 121200) * Pow10(s);
        { assert u * Pow10(s + 2) == (u * 100) * Pow10(s); }
        (u * 100) * Pow10(s) <= (w.unscaled * 121200) * Pow10(s);
        { MulMonotone(u * 100, w.unscaled * 121200, Pow10(s)); }
        u * 100 <= w.unscaled * 121200;
      }
    }
  }

  /**
   * For salaries of scale 2 the count stays at scale 2: 5000.00 gives 4.13, 3000.00 gives
   * 2.48 and 6000.00 gives 4.96, not the whole numbers 5, 3 and 5.
   */
  lemma MinimumWageUnitsKeepsScale()
    ensures MinimumWageUnits(Decimal(500000, 2)) == Decimal(413, 2)
    ensures MinimumWageUnits(Decimal(300000, 2)) == Decimal(248, 2)
    ensures MinimumWageUnits(Decimal(600000, 2)) == Decimal(496, 2)
  {
  }

  /** The largest scale among the salaries, and at least `BigDecimal.ZERO`'s scale 0. */
  function SalaryScale(es: seq<Employee>): (s: nat)
    ensures forall e :: e in es ==> e.salary.scale <= s
  {
    if es == [] then 0
    else
      var init, last := es[..|es| - 1], es[|es| - 1];
      assert es == init + [last];
      var s := SalaryScale(init);
      if s < last.salary.scale then last.salary.scale else s
  }

  /** The sum of the salaries, each written at the common scale `k`. */
  function SalarySum(es: seq<Employee>, k: nat): int
    requires SalaryScale(es) <= k
  {
    if es == [] then 0
    else SalarySum(es[..|es| - 1], k) + Rescale(es[|es| - 1].salary, k)
  }

  /** Rescaling a sum rescales each term. */
  lemma {:induction false} SalarySumRescale(es: seq<Employee>, k: nat, j: nat)
    requires SalaryScale(es) <= k <= j
    ensures SalarySum(es, k) * Pow10(j - k) == SalarySum(es, j)
  {
    if es != [] {
      var init, last := es[..|es| - 1], es[|es| - 1];
      SalarySumRescale(init, k, j);
      RescaleTwice(last.salary, k, j);
      MulDistributes(SalarySum(init, k), Rescale(last.salary, k), Pow10(j - k));
    }
  }

  /** Adding one more salary to the running total keeps it the exact sum. */
  lemma TotalStep(es: seq<Employee>, e: Employee, total: Decimal)
    requires total.scale == SalaryScale(es) && total.unscaled == SalarySum(es, total.scale)
    ensures Add(total, e.salary).scale == SalaryScale(es + [e])
    ensures Add(total, e.salary).unscaled == SalarySum(es + [e], Add(total, e.salary).scale)
  {
    var next := Add(total, e.salary);
    assert (es + [e])[..|es|] == es;
    SalarySumRescale(es, total.scale, next.scale);
  }

  /** The names that occur in `es`. */
  function NamesOf(es: seq<Employee>): set<string>
  {
    set e | e in es :: e.name
  }

  lemma NamesOfAppend(es: seq<Employee>, x: Employee)
    ensures NamesOf(es + [x]) == NamesOf(es) + {x.name}
  {
  }

  /** Whether no later employee of `es` has the name of `es[i]`. */
  predicate IsLastWithName(es: seq<Employee>, i: nat)
    requires i < |es|
  {
    forall j :: i < j < |es| ==> es[j].name != es[i].name
  }

  /**
   * Appending `x` leaves the last occurrences before it as they were, except those of `x`'s
   * name, whose last occurrence is now `x`.
   */
  lemma LastWithNameExtend(es: seq<Employee>, x: Employee)
    ensures IsLastWithName(es + [x], |es|)
    ensures forall j :: 0 <= j < |es| && IsLastWithName(es + [x], j) ==>
      IsLastWithName(es, j) && es[j].name != x.name
  {
    forall j | 0 <= j < |es| && IsLastWithName(es + [x], j)
      ensures IsLastWithName(es, j) && es[j].name != x.name
    {
      assert (es + [x])[|es|] == x;
      forall k | j < k < |es|
        ensures es[k].name != es[j].name
      {
        assert (es + [x])[k] == es[k];
      }
    }
  }

  /** Three employees: Carol, Alice and Bob, stored in that order. */
  const Alice := Employee("Alice", "Eng", LocalDate(1990, 1, 1), Decimal(500000, 2))
  const Bob := Employee("Bob", "Eng", LocalDate(1985, 6, 15), Decimal(300000, 2))
  const Carol := Employee("Carol", "HR", LocalDate(2000, 12, 31), Decimal(600000, 2))

  /** Bob, born first, is the senior employee. */
  lemma ThreeEmployeesSenior()
    ensures SeniorIndex([Carol, Alice, Bob]) == 2
  {
  }

  /** Sorted by name they read Alice, Bob, Carol. */
  lemma ThreeEmployeesSorted()
    ensures SortByName([Carol, Alice, Bob]) == [Alice, Bob, Carol]
  {
    assert [Carol, Alice, Bob][..2] == [Carol, Alice];
    assert [Carol, Alice][..1] == [Carol];
    assert [Carol][..0] == [];
    assert SortByName([Carol]) == [Carol] by {
      assert InsertionPoint([], Carol) == 0;
    }
    assert NameLeq(Alice.name, Bob.name) && !NameLeq(Carol.name, Bob.name) && !NameLeq(Carol.name, Alice.name);
    assert InsertionPoint([Carol], Alice) == 0;
    assert SortByName([Carol, Alice]) == [Alice, Carol];
    assert [Alice, Carol][..1] == [Alice];
    assert InsertionPoint([Alice, Carol], Bob) == 1;
  }

  /** Their salaries total 14000.00. */
  lemma ThreeEmployeesTotal()
    ensures SalaryScale([Carol, Alice, Bob]) == 2 && SalarySum([Carol, Alice, Bob], 2) == 1400000
  {
    assert [Carol, Alice, Bob][..2] == [Carol, Alice];
    assert [Carol, Alice][..1] == [Carol];
    assert [Carol][..0] == [];
    assert SalaryScale([Carol]) == 2 && SalaryScale([Carol, Alice]) == 2;
    assert SalarySum([Carol], 2) == 600000;
    assert SalarySum([Carol, Alice], 2) == 1100000;
  }

  class EmployeeLocalService {
    /** The employee list held by the backing `MemoryDatabase`. */
    var store: seq<Employee>

    /** The store starts with whatever the database holds; its contents are not part of this model. */
    constructor (employees: seq<Employee>)
      ensures store == employees
    {
      store := employees;
    }

    /** `getAllEmployees`: the Java method returns the live list; the model returns its value. */
    method GetAllEmployees() returns (es: seq<Employee>)
      ensures es == store
    {
      es := store;
    }

    /**
     * `filterByBirthDateRange` over already-parsed bounds: the stored employees born on or
     * between the two dates, in store order.
     */
    function FilterByBirthDateRange(start: Date, end: Date): (r: seq<Employee>)
      reads this
      ensures forall e :: e in r <==> e in store && Precedes(start, e.birthDate) && Precedes(e.birthDate, end)
      ensures forall e :: multiset(r)[e] ==
                          if Precedes(start, e.birthDate) && Precedes(e.birthDate, end) then multiset(store)[e] else 0
      ensures IsSubsequence(r, store)
      ensures IsAfter(start, end) ==> r == []
    {
      var inRange := (e: Employee) => BornBetween(e.birthDate, start, end);
      FilterCounts(inRange, store);
      FilterIsSubsequence(inRange, store);
      var r := Filter(inRange, store);
      assert r != [] ==> r[0] in r;
      r
    }

    /** A range of one day selects exactly the employees born on that day. */
    lemma FilterSingleDay(d: Date)
      ensures forall e :: e in FilterByBirthDateRange(d, d) <==> e in store && e.birthDate == d
    {
    }

    /**
     * `getSeniorEmployee`: the first stored employee with the earliest birth date,
     * or `null` when the store is empty.
     */
    function GetSeniorEmployee(): (r: Option<Employee>)
      reads this
      ensures r.None? <==> store == []
      ensures r.Some? ==> forall e :: e in store ==> !IsAfter(r.value.birthDate, e.birthDate)
      ensures r.Some? ==> exists k :: 0 <= k < |store| && store[k] == r.value &&
                                      forall j :: 0 <= j < k ==> IsAfter(store[j].birthDate, r.value.birthDate)
    {
      if store == [] then None
      else
        var k := SeniorIndex(store);
        assert forall e :: e in store ==> !IsAfter(store[k].birthDate, e.birthDate) by {
          forall e | e in store
            ensures !IsAfter(store[k].birthDate, e.birthDate)
          {
            var j :| 0 <= j < |store| && store[j] == e;
          }
        }
        Some(store[k])
    }

    /**
     * `calculateSeniorAge` with `today` in place of `LocalDate.now()`: the years of the period
     * from the senior employee's birth date to today; throws when the store is empty.
     */
    function CalculateSeniorAge(today: Date): (r: Result<int, ServiceError>)
      reads this
      ensures r.Err? <==> store == []
      ensures r.Err? ==> r.error == SeniorEmployeeNotFound
      ensures r.Ok? ==> GetSeniorEmployee().Some? && r.value == PeriodYears(GetSeniorEmployee().value.birthDate, today)
      ensures r.Ok? && !IsAfter(GetSeniorEmployee().value.birthDate, today) ==>
        var b := GetSeniorEmployee().value.birthDate;
        r.value == today.year - b.year - (if BeforeAnniversary(b, today) then 1 else 0)
      ensures (exists e :: e in store && !IsAfter(e.birthDate, today)) ==> r.Ok? && r.value >= 0
    {
      match GetSeniorEmployee()
      case None => Err(SeniorEmployeeNotFound)
      case Some(senior) =>
        if IsAfter(senior.birthDate, today) then
          Ok(PeriodYears(senior.birthDate, today))
        else
          PeriodYearsWhole(senior.birthDate, today);
          Ok(PeriodYears(senior.birthDate, today))
    }

    /**
     * `sortEmployeesInAlphabeticOrder`: sorts the store's own list by name, stably, and
     * returns it.
     */
    method SortEmployeesInAlphabeticOrder() returns (es: seq<Employee>)
      modifies this
      ensures store == SortByName(old(store)) && es == store
      ensures SortedByName(store)
      ensures multiset(store) == multiset(old(store))
      ensures forall n :: WithName(store, n) == WithName(old(store), n)
    {
      ghost var before := store;
      store := SortByName(store);
      SortByNameSorted(before);
      SortByNamePermutes(before);
      forall n
        ensures WithName(store, n) == WithName(before, n)
      {
        SortByNameStable(before, n);
      }
      es := store;
    }

    /**
     * `calculateMinimumSalaries`: one entry per name, mapping it to the minimum-wage count of
     * the last stored employee of that name (later `put`s overwrite earlier ones).
     */
    method CalculateMinimumSalaries() returns (m: map<string, Decimal>)
      ensures m.Keys == NamesOf(store)
      ensures forall i :: 0 <= i < |store| && IsLastWithName(store, i) ==>
        store[i].name in m && m[store[i].name] == MinimumWageUnits(store[i].salary)
    {
      m := map[];
      var i := 0;
      while i < |store|
        invariant 0 <= i <= |store|
        invariant m.Keys == NamesOf(store[..i])
        invariant forall j :: 0 <= j < i && IsLastWithName(store[..i], j) ==>
          store[j].name in m && m[store[j].name] == MinimumWageUnits(store[j].salary)
      {
        var employee := store[i];
        var units := MinimumWageUnits(employee.salary);
        ghost var done, m0 := store[..i], m;
        assert store[..i + 1] == done + [employee];
        m := m[employee.name := units];
        LastWithNameExtend(done, employee);
        NamesOfAppend(done, employee);
        forall j | 0 <= j < i + 1 && IsLastWithName(done + [employee], j)
          ensures store[j].name in m && m[store[j].name] == MinimumWageUnits(store[j].salary)
        {
          if j < i {
            assert done[j] == store[j];
          }
        }
        i := i + 1;
      }
      assert store[..i] == store;
    }

    /**
     * `calculateTotalSalary`: `BigDecimal.ZERO` plus every salary, exactly, at the largest
     * scale involved.
     */
    method CalculateTotalSalary() returns (total: Decimal)
      ensures total.scale == SalaryScale(store)
      ensures forall k: nat :: total.scale <= k ==> Rescale(total, k) == SalarySum(store, k)
      ensures store == [] ==> total == Zero
    {
      total := Zero;
      var i := 0;
      while i < |store|
        invariant 0 <= i <= |store|
        invariant total.scale == SalaryScale(store[..i])
        invariant total.unscaled == SalarySum(store[..i], total.scale)
      {
        assert store[..i + 1] == store[..i] + [store[i]];
        TotalStep(store[..i], store[i], total);
        total := Add(total, store[i].salary);
        i := i + 1;
      }
      assert store[..i] == store;
      forall k: nat | total.scale <= k
        ensures Rescale(total, k) == SalarySum(store, k)
      {
        SalarySumRescale(store, total.scale, k);
      }
    }
  }
}
