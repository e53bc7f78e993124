/** The fee ledger: totals over a student's fee items, the applicable-fee
    view, student payment, the admin's status override and fee-list
    completion, and the per-student and portal-wide summaries. */
module Fees {
  import opened Wrappers
  import opened Types
  import opened Seqs
  import opened Directory

  /** `fees.reduce((sum, f) => sum + f.amount, 0)`. */
  function Total(fees: seq<FeeItem>): int
    decreases |fees|
  {
    if |fees| == 0 then 0 else fees[0].amount + Total(fees[1..])
  }

  predicate IsPaid(f: FeeItem) { f.status == Paid }
  predicate IsUnpaid(f: FeeItem) { f.status == Unpaid }

  ghost predicate NonNegativeAmounts(fees: seq<FeeItem>)
  {
    forall f :: f in fees ==> f.amount >= 0
  }

  lemma {:induction false} TotalOfConcat(a: seq<FeeItem>, b: seq<FeeItem>)
    ensures Total(a + b) == Total(a) + Total(b)
    decreases |a|
  {
    if |a| == 0 {
      assert a + b == b;
    } else {
      assert (a + b)[1..] == a[1..] + b;
      TotalOfConcat(a[1..], b);
    }
  }

  /** Splitting the items by a predicate and its negation splits the total. */
  lemma {:induction false} TotalSplit(fees: seq<FeeItem>, p: FeeItem -> bool, q: FeeItem -> bool)
    requires forall f :: q(f) == !p(f)
    ensures Total(fees) == Total(Filter(fees, p)) + Total(Filter(fees, q))
    decreases |fees|
  {
    if |fees| > 0 {
      var f := fees[0];
      assert fees == [f] + fees[1..];
      TotalSplit(fees[1..], p, q);
      TotalOfConcat(if p(f) then [f] else [], Filter(fees[1..], p));
      TotalOfConcat(if q(f) then [f] else [], Filter(fees[1..], q));
    }
  }

  lemma {:induction false} TotalNonNegative(fees: seq<FeeItem>)
    requires NonNegativeAmounts(fees)
    ensures Total(fees) >= 0
    decreases |fees|
  {
    if |fees| > 0 {
      assert fees[0] in fees;
      assert forall f :: f in fees[1..] ==> f in fees;
      TotalNonNegative(fees[1..]);
    }
  }

  datatype FeeSummary = FeeSummary(total: int, paid: int, pending: int)

  /** The totals every page derives from one student's fee items: the sum of
      all amounts, the sum of the paid ones and the remainder. */
  function Summarize(fees: seq<FeeItem>): (r: FeeSummary)
    ensures r.paid + r.pending == r.total
    ensures r.total == Total(fees)
    ensures r.pending == Total(Filter(fees, IsUnpaid))
    ensures NonNegativeAmounts(fees) ==> 0 <= r.paid <= r.total
  {
    var total := Total(fees);
    var paid := Total(Filter(fees, IsPaid));
    TotalSplit(fees, IsPaid, IsUnpaid);
    PaidWithinTotal(fees);
    FeeSummary(total, paid, total - paid)
  }

  lemma PaidWithinTotal(fees: seq<FeeItem>)
    ensures NonNegativeAmounts(fees) ==> 0 <= Total(Filter(fees, IsPaid)) <= Total(fees)
  {
    if NonNegativeAmounts(fees) {
      TotalSplit(fees, IsPaid, IsUnpaid);
      TotalNonNegative(Filter(fees, IsPaid));
      TotalNonNegative(Filter(fees, IsUnpaid));
    }
  }

  /** The student fee page's row filter by student type. */
  predicate Applicable(c: FeeCategory, t: StudentType)
  {
    match t
    case DayScholar => c != Hostel && c != Mess
    case Hosteller => c != Bus
  }

  function ApplicableTo(t: StudentType): FeeItem -> bool
  {
    (f: FeeItem) => Applicable(f.category, t)
  }

  function ExcludedFrom(t: StudentType): FeeItem -> bool
  {
    (f: FeeItem) => !Applicable(f.category, t)
  }

  /** `studentFees`: a Day Scholar does not see Hostel and Mess, a Hosteller
      does not see Bus; every other item is shown, in stored order. */
  function ApplicableFees(s: Student): (r: seq<FeeItem>)
    ensures forall f :: f in r <==> f in s.fees && Applicable(f.category, s.studentType)
    ensures forall f :: multiset(r)[f] == if Applicable(f.category, s.studentType) then multiset(s.fees)[f] else 0
    ensures IsSubseq(r, s.fees)
  {
    FilterKeepsOrder(s.fees, ApplicableTo(s.studentType));
    Filter(s.fees, ApplicableTo(s.studentType))
  }

  lemma ApplicableCategories(c: FeeCategory)
    ensures Applicable(c, DayScholar) <==> c !in {Hostel, Mess}
    ensures Applicable(c, Hosteller) <==> c != Bus
  {
  }

  datatype StudentFeeTotals = StudentFeeTotals(assignedTotal: int, paid: int, pending: int)

  /** `totalAssigned`, `totalPaid` and `totalPending` of the student fee page.
      Only the assigned total is restricted to applicable items; paid and
      pending range over every stored item. */
  function FeeTotals(s: Student): (r: StudentFeeTotals)
    ensures r.assignedTotal == Total(ApplicableFees(s))
    ensures r.paid + r.pending == Total(s.fees)
    ensures r.pending == Total(Filter(s.fees, IsUnpaid))
  {
    var summary := Summarize(s.fees);
    StudentFeeTotals(Total(ApplicableFees(s)), summary.paid, summary.pending)
  }

  /** Paid plus pending exceeds the assigned total by exactly the amounts
      of the items hidden from this student type. */
  lemma FeeTotalsCoverHiddenItems(s: Student)
    ensures FeeTotals(s).paid + FeeTotals(s).pending
         == FeeTotals(s).assignedTotal + Total(Filter(s.fees, ExcludedFrom(s.studentType)))
  {
    TotalSplit(s.fees, ApplicableTo(s.studentType), ExcludedFrom(s.studentType));
  }

  /** The Pay button is rendered for an unpaid item while payments are enabled. */
  predicate PayOffered(f: FeeItem, paymentsEnabled: bool)
  {
    f.status == Unpaid && paymentsEnabled
  }

  /** The items a student can start paying for from the fee page. */
  function PayActions(s: Student, paymentsEnabled: bool): (r: seq<FeeItem>)
    ensures forall f :: f in r <==> f in s.fees && Applicable(f.category, s.studentType) &&
                                    f.status == Unpaid && paymentsEnabled
    ensures !paymentsEnabled ==> r == []
  {
    var r := Filter(ApplicableFees(s), (f: FeeItem) => PayOffered(f, paymentsEnabled));
    assert !paymentsEnabled ==> r == [] by {
      if |r| > 0 { assert r[0] in r; }
    }
    r
  }

  /** A fee item records a payment exactly when it is paid. */
  ghost predicate PaymentRecorded(f: FeeItem)
  {
    if f.status == Paid then f.paymentDate.Some? && f.transactionId.Some? && f.paymentMode.Some?
    else f.paymentDate.None? && f.transactionId.None? && f.paymentMode.None?
  }

  /** `updatedFee` of `handleConfirmPayment`: the clicked item marked paid with
      today's date, a `TXN` transaction id and the chosen mode. */
  function PaidItem(item: FeeItem, mode: PaymentMode, date: string, stamp: string): (r: FeeItem)
    ensures r.status == Paid && r.paymentDate == Some(date) && r.paymentMode == Some(mode)
    ensures r.transactionId == Some("TXN" + stamp)
    ensures r.category == item.category && r.amount == item.amount
    ensures PaymentRecorded(r)
  {
    item.(status := Paid, paymentDate := Some(date), transactionId := Some("TXN" + stamp), paymentMode := Some(mode))
  }

  function OfCategory(c: FeeCategory): FeeItem -> bool
  {
    (f: FeeItem) => f.category == c
  }

  /** The fee list of the paying student after `handleConfirmPayment`: every
      item of the paid category becomes the paid copy of the clicked item. */
  function PayItems(fees: seq<FeeItem>, item: FeeItem, mode: PaymentMode, date: string, stamp: string): (r: seq<FeeItem>)
    ensures |r| == |fees|
    ensures forall i :: 0 <= i < |fees| && fees[i].category == item.category ==>
      r[i] == PaidItem(item, mode, date, stamp)
    ensures forall i :: 0 <= i < |fees| && fees[i].category != item.category ==> r[i] == fees[i]
  {
    MapWhere(fees, OfCategory(item.category), (f: FeeItem) => PaidItem(item, mode, date, stamp))
  }

  /** `handleConfirmPayment`: only the paying student's fee list changes. The
      handler does not look at the current status or at the payments switch;
      `PayOffered` is the only gate. */
  function ConfirmPayment(students: seq<Student>, studentId: string, item: FeeItem,
                          mode: PaymentMode, date: string, stamp: string): (r: seq<Student>)
    ensures |r| == |students|
    ensures forall i :: 0 <= i < |students| && students[i].id == studentId ==>
      r[i].fees == PayItems(students[i].fees, item, mode, date, stamp) &&
      r[i].(fees := students[i].fees) == students[i]
    ensures forall i :: 0 <= i < |students| && students[i].id != studentId ==> r[i] == students[i]
  {
    MapWhere(students, (s: Student) => s.id == studentId,
             (s: Student) => s.(fees := PayItems(s.fees, item, mode, date, stamp)))
  }

  lemma TotalCons(x: FeeItem, s: seq<FeeItem>)
    ensures Total([x] + s) == x.amount + Total(s)
  {
    assert ([x] + s)[1..] == s;
  }

  /** Lists with the same amounts position by position have the same total. */
  lemma {:induction false} TotalPointwise(a: seq<FeeItem>, b: seq<FeeItem>)
    requires |a| == |b| && forall i :: 0 <= i < |a| ==> a[i].amount == b[i].amount
    ensures Total(a) == Total(b)
    decreases |a|
  {
    if |a| > 0 {
      TotalPointwise(a[1..], b[1..]);
    }
  }

  /** The total of a list whose head is present only when `c` holds. */
  lemma TotalOptionalHead(c: bool, x: FeeItem, s: seq<FeeItem>)
    ensures Total((if c then [x] else []) + s) == (if c then x.amount else 0) + Total(s)
  {
    if c {
      TotalCons(x, s);
    } else {
      assert [] + s == s;
    }
  }

  lemma {:induction false} PayItemsPending(fees: seq<FeeItem>, item: FeeItem, mode: PaymentMode,
                                           date: string, stamp: string)
    requires item.status == Unpaid
    requires forall f :: f in fees && f.category == item.category ==> f == item
    ensures Total(Filter(PayItems(fees, item, mode, date, stamp), IsUnpaid))
          + Total(Filter(fees, OfCategory(item.category)))
         == Total(Filter(fees, IsUnpaid))
    decreases |fees|
  {
    if |fees| > 0 {
      var f := fees[0];
      var t := fees[1..];
      var p := OfCategory(item.category);
      var after := PayItems(fees, item, mode, date, stamp);
      var rest := PayItems(t, item, mode, date, stamp);
      assert after[1..] == rest by {
        forall i | 0 <= i < |rest| ensures after[1..][i] == rest[i] {
          assert t[i] == fees[i + 1];
        }
      }
      var head := after[0];
      assert f.category == item.category ==> f == item && head == PaidItem(item, mode, date, stamp) by {
        assert f in fees;
      }
      assert f.category != item.category ==> head == f;
      assert forall g :: g in t ==> g in fees;
      PayItemsPending(t, item, mode, date, stamp);
      FilterCons(after, IsUnpaid);
      FilterCons(fees, p);
      FilterCons(fees, IsUnpaid);
      TotalOptionalHead(IsUnpaid(head), head, Filter(rest, IsUnpaid));
      TotalOptionalHead(p(f), f, Filter(t, p));
      TotalOptionalHead(IsUnpaid(f), f, Filter(t, IsUnpaid));
    }
  }

  /** Paying an unpaid category moves its amount from pending to paid and
      leaves the total as it was. */
  lemma PaymentSettlesCategory(fees: seq<FeeItem>, item: FeeItem, mode: PaymentMode,
                               date: string, stamp: string)
    requires item.status == Unpaid
    requires forall f :: f in fees && f.category == item.category ==> f == item
    ensures Summarize(PayItems(fees, item, mode, date, stamp)).total == Summarize(fees).total
    ensures Summarize(PayItems(fees, item, mode, date, stamp)).pending
         == Summarize(fees).pending - Total(Filter(fees, OfCategory(item.category)))
  {
    var after := PayItems(fees, item, mode, date, stamp);
    forall i | 0 <= i < |fees| ensures after[i].amount == fees[i].amount {
      if fees[i].category == item.category { assert fees[i] in fees; }
    }
    TotalPointwise(after, fees);
    PayItemsPending(fees, item, mode, date, stamp);
  }

  /** One press of the admin's status button on an item. */
  function ToggleItem(f: FeeItem, date: string, stamp: string): (r: FeeItem)
    ensures r.status != f.status
    ensures r.category == f.category && r.amount == f.amount
    ensures r.status == Paid ==> r.paymentDate == Some(date) && r.paymentMode == Some(BankTransfer) &&
                                 r.transactionId == Some("ADMIN_OVERRIDE_" + stamp)
    ensures PaymentRecorded(r)
  {
    if f.status == Paid then
      f.(status := Unpaid, paymentDate := None, transactionId := None, paymentMode := None)
    else
      f.(status := Paid, paymentDate := Some(date), transactionId := Some("ADMIN_OVERRIDE_" + stamp),
         paymentMode := Some(BankTransfer))
  }

  /** `handleStatusToggle`: flips every item of the category, leaving the others. */
  function ToggleStatus(fees: seq<FeeItem>, c: FeeCategory, date: string, stamp: string): (r: seq<FeeItem>)
    ensures |r| == |fees|
    ensures forall i :: 0 <= i < |fees| && fees[i].category == c ==> r[i] == ToggleItem(fees[i], date, stamp)
    ensures forall i :: 0 <= i < |fees| && fees[i].category != c ==> r[i] == fees[i]
  {
    MapWhere(fees, OfCategory(c), (f: FeeItem) => ToggleItem(f, date, stamp))
  }

  /** An unpaid item that carries no payment details. */
  predicate Clean(f: FeeItem)
  {
    f.status == Unpaid && f.paymentDate.None? && f.transactionId.None? && f.paymentMode.None?
  }

  /** Toggling a clean category twice gives back the original list. */
  lemma ToggleTwiceRestores(fees: seq<FeeItem>, c: FeeCategory, d1: string, s1: string, d2: string, s2: string)
    requires forall f :: f in fees && f.category == c ==> Clean(f)
    ensures ToggleStatus(ToggleStatus(fees, c, d1, s1), c, d2, s2) == fees
  {
    var once := ToggleStatus(fees, c, d1, s1);
    var twice := ToggleStatus(once, c, d2, s2);
    forall i | 0 <= i < |fees| ensures twice[i] == fees[i] {
      if fees[i].category == c {
        assert fees[i] in fees;
      }
    }
  }

  /** `handleFeeChange`, with the typed amount already read as a number. */
  function ChangeAmount(fees: seq<FeeItem>, c: FeeCategory, amount: int): (r: seq<FeeItem>)
    ensures |r| == |fees|
    ensures forall i :: 0 <= i < |fees| && fees[i].category == c ==>
      r[i].amount == amount && r[i].(amount := fees[i].amount) == fees[i]
    ensures forall i :: 0 <= i < |fees| && fees[i].category != c ==> r[i] == fees[i]
  {
    MapWhere(fees, OfCategory(c), (f: FeeItem) => f.(amount := amount))
  }

  /** Item `i` is the last item of category `c`. */
  ghost predicate LastOfCategoryAt(fees: seq<FeeItem>, c: FeeCategory, i: int)
  {
    0 <= i < |fees| && fees[i].category == c && forall j :: i < j < |fees| ==> fees[j].category != c
  }

  /** `new Map(fees.map(f => [f.type, f]))`: each present category mapped to
      its last item, since later entries overwrite earlier ones. */
  function ByCategory(fees: seq<FeeItem>): (m: map<FeeCategory, FeeItem>)
    ensures forall c :: c !in m <==> forall i :: 0 <= i < |fees| ==> fees[i].category != c
    ensures forall c :: c in m ==> exists i :: LastOfCategoryAt(fees, c, i) && m[c] == fees[i]
    decreases |fees|
  {
    if |fees| == 0 then map[]
    else
      var init := fees[..|fees| - 1];
      var last := fees[|fees| - 1];
      var earlier := ByCategory(init);
      var m := earlier[last.category := last];
      assert forall c :: c !in m <==> forall i :: 0 <= i < |fees| ==> fees[i].category != c by {
        forall c ensures c !in m <==> forall i :: 0 <= i < |fees| ==> fees[i].category != c {
          if c != last.category && c !in earlier {
            forall i | 0 <= i < |fees| ensures fees[i].category != c {
              if i < |init| { assert fees[i] == init[i]; }
            }
          }
          if c != last.category && c in earlier {
            var i :| LastOfCategoryAt(init, c, i) && earlier[c] == init[i];
            assert fees[i] == init[i];
          }
        }
      }
      assert forall c :: c in m ==> exists i :: LastOfCategoryAt(fees, c, i) && m[c] == fees[i] by {
        forall c | c in m ensures exists i :: LastOfCategoryAt(fees, c, i) && m[c] == fees[i] {
          if c == last.category {
            assert LastOfCategoryAt(fees, c, |fees| - 1);
          } else {
            var i :| LastOfCategoryAt(init, c, i) && earlier[c] == init[i];
            LastSurvivesAppend(fees, c, i);
          }
        }
      }
      m
  }

  /** The last item of a category among all but the final item stays the
      last one when the final item has another category. */
  lemma LastSurvivesAppend(fees: seq<FeeItem>, c: FeeCategory, i: int)
    requires |fees| > 0 && fees[|fees| - 1].category != c
    requires LastOfCategoryAt(fees[..|fees| - 1], c, i)
    ensures LastOfCategoryAt(fees, c, i)
  {
    var init := fees[..|fees| - 1];
    forall j | i < j < |fees| ensures fees[j].category != c {
      if j < |init| { assert fees[j] == init[j]; }
    }
  }

  /** The default item `initialFees` and sign-up give a category. */
  function DefaultItem(c: FeeCategory): FeeItem
  {
    FeeItem(c, 0, Unpaid, None, None, None)
  }

  /** `initialFees` of the admin fee editor: one item per category in
      `FEE_CATEGORIES` order, the last stored item of that category if there
      is one, else amount 0 and unpaid. */
  function CompleteFees(fees: seq<FeeItem>): (r: seq<FeeItem>)
    ensures |r| == |FeeCategories|
    ensures forall i :: 0 <= i < |r| ==> r[i].category == FeeCategories[i]
    ensures forall i :: 0 <= i < |r| ==>
      (exists j :: LastOfCategoryAt(fees, FeeCategories[i], j) && r[i] == fees[j]) ||
      ((forall j :: 0 <= j < |fees| ==> fees[j].category != FeeCategories[i]) && r[i] == DefaultItem(FeeCategories[i]))
  {
    var m := ByCategory(fees);
    seq(|FeeCategories|, i requires 0 <= i < |FeeCategories| =>
      if FeeCategories[i] in m then m[FeeCategories[i]] else DefaultItem(FeeCategories[i]))
  }

  /** Completing an already complete list changes nothing. */
  lemma CompleteFeesIdempotent(fees: seq<FeeItem>)
    ensures CompleteFees(CompleteFees(fees)) == CompleteFees(fees)
  {
    var once := CompleteFees(fees);
    var twice := CompleteFees(once);
    FeeCategoriesDistinct();
    forall i | 0 <= i < |FeeCategories| ensures twice[i] == once[i] {
      var c := FeeCategories[i];
      assert once[i].category == c;
      if j :| LastOfCategoryAt(once, c, j) && twice[i] == once[j] {
        assert j == i;
      }
    }
  }

  /** `FEE_CATEGORIES.map(...)` of sign-up: every category at amount 0, unpaid. */
  function DefaultFees(): (r: seq<FeeItem>)
    ensures |r| == |FeeCategories|
    ensures forall i :: 0 <= i < |r| ==> Clean(r[i]) && r[i].amount == 0 && r[i].category == FeeCategories[i]
  {
    seq(|FeeCategories|, i requires 0 <= i < |FeeCategories| => DefaultItem(FeeCategories[i]))
  }

  /** The default fee list is what completing an empty list gives, so it is
      already complete. */
  lemma DefaultFeesComplete()
    ensures DefaultFees() == CompleteFees([])
    ensures CompleteFees(DefaultFees()) == DefaultFees()
  {
    CompleteFeesIdempotent([]);
  }

  /** `feeData` of the admin summary: the amount of each category's last item. */
  function FeeData(fees: seq<FeeItem>): (m: map<FeeCategory, int>)
    ensures forall c :: c in m <==> exists i :: 0 <= i < |fees| && fees[i].category == c
    ensures forall c :: c in m ==> exists i :: LastOfCategoryAt(fees, c, i) && m[c] == fees[i].amount
  {
    var byCategory := ByCategory(fees);
    map c | c in byCategory :: byCategory[c].amount
  }

  datatype FeeRow = FeeRow(student: Student, summary: FeeSummary, feeData: map<FeeCategory, int>)

  /** `feeSummaries` of the admin fee page: one row per student, in order. */
  function AdminFeeSummaries(students: seq<Student>): (r: seq<FeeRow>)
    ensures |r| == |students|
    ensures forall i :: 0 <= i < |r| ==>
      && r[i].student == students[i]
      && r[i].summary.total == Total(students[i].fees)
      && r[i].summary.paid == Total(Filter(students[i].fees, IsPaid))
      && r[i].summary.paid + r[i].summary.pending == r[i].summary.total
      && r[i].summary.pending == Total(Filter(students[i].fees, IsUnpaid))
      && r[i].feeData == FeeData(students[i].fees)
  {
    seq(|students|, i requires 0 <= i < |students| =>
      FeeRow(students[i], Summarize(students[i].fees), FeeData(students[i].fees)))
  }

  /** `studentFeeSummaries` of the faculty fee page: one row per student of the
      faculty member's department. */
  function FacultyFeeSummaries(students: seq<Student>, department: string): (r: seq<(Student, FeeSummary)>)
    ensures |r| == |DepartmentStudents(students, department)|
    ensures forall i :: 0 <= i < |r| ==>
      && r[i].0 == DepartmentStudents(students, department)[i]
      && r[i].0.department == department && r[i].0 in students
      && r[i].1.total == Total(r[i].0.fees)
      && r[i].1.paid == Total(Filter(r[i].0.fees, IsPaid))
      && r[i].1.paid + r[i].1.pending == r[i].1.total
  {
    var roster := DepartmentStudents(students, department);
    seq(|roster|, i requires 0 <= i < |roster| => (roster[i], Summarize(roster[i].fees)))
  }

  /** A row of the reports page's list of students with dues. */
  datatype Due = Due(name: string, rollNumber: string, department: string, pending: int)

  function DueOf(s: Student): Due
  {
    Due(s.name, s.rollNumber, s.department, Summarize(s.fees).pending)
  }

  predicate HasDues(s: Student)
  {
    Summarize(s.fees).pending > 0
  }

  function DuePending(d: Due): int { d.pending }

  /** Sum of every student's fee total: the reference for the report's total. */
  function TotalSum(students: seq<Student>): int
    decreases |students|
  {
    if |students| == 0 then 0 else Total(students[0].fees) + TotalSum(students[1..])
  }

  /** Sum of every student's paid items: the reference for the collected figure. */
  function PaidSum(students: seq<Student>): int
    decreases |students|
  {
    if |students| == 0 then 0 else Total(Filter(students[0].fees, IsPaid)) + PaidSum(students[1..])
  }

  /** Sum of every student's unpaid items: the reference for the report's
      pending figure. */
  function PendingSum(students: seq<Student>): int
    decreases |students|
  {
    if |students| == 0 then 0 else Summarize(students[0].fees).pending + PendingSum(students[1..])
  }

  /** Portal-wide, the total is what was collected plus what is pending. */
  lemma {:induction false} SumsSplit(students: seq<Student>)
    ensures TotalSum(students) == PaidSum(students) + PendingSum(students)
    decreases |students|
  {
    if |students| > 0 {
      TotalSplit(students[0].fees, IsPaid, IsUnpaid);
      SumsSplit(students[1..]);
    }
  }

  datatype FeeReport = FeeReport(total: int, collected: int, pending: int, dues: seq<Due>)

  /** The `forEach` of the reports page: sums every student's total and paid
      amounts and lists, in one pass, the students with a positive pending
      amount. The list is the same as filtering the students with dues and
      then mapping each to its row. */
  function CollectFees(students: seq<Student>): (r: (int, int, seq<Due>))
    ensures r.0 == TotalSum(students)
    ensures r.1 == PaidSum(students)
    ensures r.2 == MapSeq(Filter(students, HasDues), DueOf)
    decreases |students|
  {
    if |students| == 0 then (0, 0, [])
    else
      var s := students[0];
      var rest := CollectFees(students[1..]);
      var r := (Total(s.fees) + rest.0, Total(Filter(s.fees, IsPaid)) + rest.1,
                (if HasDues(s) then [DueOf(s)] else []) + rest.2);
      assert r.0 == TotalSum(students) by {
        assert TotalSum(students) == Total(s.fees) + TotalSum(students[1..]);
      }
      assert r.1 == PaidSum(students) by {
        assert PaidSum(students) == Total(Filter(s.fees, IsPaid)) + PaidSum(students[1..]);
      }
      assert r.2 == MapSeq(Filter(students, HasDues), DueOf) by {
        MapFilterCons(students, HasDues, DueOf);
      }
      r
  }

  /** A row is on the dues list iff it is the row of some student with dues. */
  lemma DuesMembership(students: seq<Student>, d: Due)
    ensures d in MapSeq(Filter(students, HasDues), DueOf) <==> exists s :: s in students && HasDues(s) && d == DueOf(s)
  {
    var withDues := Filter(students, HasDues);
    var rows := MapSeq(withDues, DueOf);
    if d in rows {
      var i := PositionOf(d, rows);
      assert withDues[i] in withDues;
    }
    if exists s :: s in students && HasDues(s) && d == DueOf(s) {
      var s :| s in students && HasDues(s) && d == DueOf(s);
      var i := PositionOf(s, withDues);
      assert rows[i] == d;
    }
  }

  /** Every row on the dues list has a positive pending amount. */
  lemma DuesPositive(students: seq<Student>, d: Due)
    requires d in MapSeq(Filter(students, HasDues), DueOf)
    ensures d.pending > 0
  {
    var withDues := Filter(students, HasDues);
    var i := PositionOf(d, MapSeq(withDues, DueOf));
    assert withDues[i] in withDues;
  }

  /** Sorting keeps the rows: the same elements before and after. */
  lemma SortedDuesSameRows(dues: seq<Due>, d: Due)
    ensures d in SortDesc(dues, DuePending) <==> d in dues
  {
    var sorted := SortDesc(dues, DuePending);
    assert d in sorted <==> d in multiset(sorted);
    assert d in dues <==> d in multiset(dues);
  }

  /** The sorted dues list of the report. */
  function SortedDues(students: seq<Student>): seq<Due>
  {
    SortDesc(CollectFees(students).2, DuePending)
  }

  /** A row is on the sorted dues list iff it is the row of a student with dues. */
  lemma SortedDueRow(students: seq<Student>, d: Due)
    ensures d in SortedDues(students) <==> exists s :: s in students && HasDues(s) && d == DueOf(s)
  {
    SortedDuesSameRows(CollectFees(students).2, d);
    DuesMembership(students, d);
  }

  lemma SortedDuesRows(students: seq<Student>)
    ensures forall d :: d in SortedDues(students) <==> exists s :: s in students && HasDues(s) && d == DueOf(s)
  {
    forall d ensures d in SortedDues(students) <==> exists s :: s in students && HasDues(s) && d == DueOf(s) {
      SortedDueRow(students, d);
    }
  }

  /** Every row on the sorted dues list has a positive pending amount. */
  lemma SortedDuesPositive(students: seq<Student>)
    ensures forall d :: d in SortedDues(students) ==> d.pending > 0
  {
    var dues := CollectFees(students).2;
    forall d | d in SortedDues(students) ensures d.pending > 0 {
      SortedDuesSameRows(dues, d);
      DuesPositive(students, d);
    }
  }

  /** Rows with equal pending amounts stay in student order. */
  lemma SortedDuesStable(students: seq<Student>)
    ensures forall k :: KeyRun(SortedDues(students), DuePending, k) == KeyRun(CollectFees(students).2, DuePending, k)
  {
    forall k ensures KeyRun(SortedDues(students), DuePending, k) == KeyRun(CollectFees(students).2, DuePending, k) {
      SortDescStable(CollectFees(students).2, DuePending, k);
    }
  }

  /** `feeSummary` of the reports page. The dues list is the collected list
      reordered by pending amount, descending, with ties kept in student order. */
  function FeeReportOf(students: seq<Student>): (r: FeeReport)
    ensures r.total == TotalSum(students)
    ensures r.collected == PaidSum(students)
    ensures r.collected + r.pending == r.total
    ensures r.pending == PendingSum(students)
    ensures forall d :: d in r.dues <==> exists s :: s in students && HasDues(s) && d == DueOf(s)
    ensures forall d :: d in r.dues ==> d.pending > 0
    ensures forall i, j :: 0 <= i < j < |r.dues| ==> r.dues[i].pending >= r.dues[j].pending
    ensures multiset(r.dues) == multiset(CollectFees(students).2)
    ensures forall k :: KeyRun(r.dues, DuePending, k) == KeyRun(CollectFees(students).2, DuePending, k)
  {
    var collected := CollectFees(students);
    SortedDuesRows(students);
    SortedDuesPositive(students);
    SortedDuesStable(students);
    SumsSplit(students);
    FeeReport(collected.0, collected.1, collected.0 - collected.1, SortedDues(students))
  }
}
