/**
 * The proposed-jobs table (web/lib/components/jobs/JobsTable.tsx): jobs are split into
 * four buckets (hidden, completed, pinned by the current worker, the rest), and each
 * bucket is shown sorted by the column the user picked. The main list is the sorted
 * pinned jobs followed by the sorted regular ones.
 */
module JobsTable {
  import opened Wrappers
  import opened Seqs
  import opened Sorting

  /** The fields of a proposed job that the table and its rows read; dates are ms timestamps. */
  datatype Job = Job(
    id: string,
    name: string,
    area: Option<string>,
    address: string,
    activeJobs: nat,
    availability: seq<int>,
    minWorkers: int,
    priority: int,
    hidden: bool,
    completed: bool,
    pinnedBy: seq<string>)

  /** `job.pinnedBy.some(worker => worker.workerId === workerId)` */
  predicate IsPinnedBy(job: Job, workerId: string) {
    workerId in job.pinnedBy
  }

  // ---------------------------------------------------------------- partition

  datatype Bucket = Hidden | Completed | Pinned | Regular

  /** The first matching test decides: hidden, then completed, then pinned, then regular. */
  function BucketOf(job: Job, workerId: string): Bucket {
    if job.hidden then Hidden
    else if job.completed then Completed
    else if IsPinnedBy(job, workerId) then Pinned
    else Regular
  }

  function InBucket(b: Bucket, workerId: string): Job -> bool {
    job => BucketOf(job, workerId) == b
  }

  /** The jobs of one bucket, in the order of `data`. */
  function BucketJobs(data: seq<Job>, workerId: string, b: Bucket): seq<Job> {
    Filter(data, InBucket(b, workerId))
  }

  /** The `data.reduce` that pushes each job onto the array of its bucket. */
  method Partition(data: seq<Job>, workerId: string)
    returns (hidden: seq<Job>, completed: seq<Job>, pinned: seq<Job>, regular: seq<Job>)
    ensures hidden == BucketJobs(data, workerId, Hidden)
    ensures completed == BucketJobs(data, workerId, Completed)
    ensures pinned == BucketJobs(data, workerId, Pinned)
    ensures regular == BucketJobs(data, workerId, Regular)
  {
    hidden, completed, pinned, regular := [], [], [], [];
    for i := 0 to |data|
      invariant hidden == BucketJobs(data[..i], workerId, Hidden)
      invariant completed == BucketJobs(data[..i], workerId, Completed)
      invariant pinned == BucketJobs(data[..i], workerId, Pinned)
      invariant regular == BucketJobs(data[..i], workerId, Regular)
    {
      var job := data[i];
      assert data[..i + 1] == data[..i] + [job];
      FilterConcat(data[..i], [job], InBucket(Hidden, workerId));
      FilterConcat(data[..i], [job], InBucket(Completed, workerId));
      FilterConcat(data[..i], [job], InBucket(Pinned, workerId));
      FilterConcat(data[..i], [job], InBucket(Regular, workerId));
      if job.hidden {
        hidden := hidden + [job];
      } else if job.completed {
        completed := completed + [job];
      } else if IsPinnedBy(job, workerId) {
        pinned := pinned + [job];
      } else {
        regular := regular + [job];
      }
    }
    assert data[..|data|] == data;
  }

  /** Together the buckets hold every job of `data` exactly as often as `data` does. */
  lemma BucketsPermutation(data: seq<Job>, workerId: string)
    ensures multiset(BucketJobs(data, workerId, Hidden)) + multiset(BucketJobs(data, workerId, Completed))
      + multiset(BucketJobs(data, workerId, Pinned)) + multiset(BucketJobs(data, workerId, Regular))
      == multiset(data)
  {
    forall x
      ensures (multiset(BucketJobs(data, workerId, Hidden)) + multiset(BucketJobs(data, workerId, Completed))
        + multiset(BucketJobs(data, workerId, Pinned)) + multiset(BucketJobs(data, workerId, Regular)))[x]
        == multiset(data)[x]
    {
      FilterMultiset(data, InBucket(Hidden, workerId), x);
      FilterMultiset(data, InBucket(Completed, workerId), x);
      FilterMultiset(data, InBucket(Pinned, workerId), x);
      FilterMultiset(data, InBucket(Regular, workerId), x);
    }
  }

  /**
   * A job of `data` is in exactly one bucket, the one its flags select, and every
   * bucket keeps the relative order of `data`.
   */
  lemma BucketsExclusive(data: seq<Job>, workerId: string, job: Job, b: Bucket)
    ensures job in BucketJobs(data, workerId, b) <==> job in data && BucketOf(job, workerId) == b
    ensures Subseq(BucketJobs(data, workerId, b), data)
  {
    FilterMembership(data, InBucket(b, workerId), job);
    FilterSubseq(data, InBucket(b, workerId));
  }

  // ---------------------------------------------------------------- sortJobs

  datatype Column = Name | Area | Address | DaysPlanned | DaysLeft | Workers | Priority

  datatype Direction = Asc | Desc

  /** `SortOrder`: no column until the user clicks a header. */
  datatype SortOrder = SortOrder(columnId: Option<string>, direction: Direction)

  /** The entries of `getSortable`. */
  function ColumnOf(columnId: string): (c: Option<Column>)
    ensures c.Some? <==> columnId in ["name", "area", "address", "daysPlanned", "daysLeft", "workers", "priority"]
  {
    match columnId
    case "name" => Some(Name)
    case "area" => Some(Area)
    case "address" => Some(Address)
    case "daysPlanned" => Some(DaysPlanned)
    case "daysLeft" => Some(DaysLeft)
    case "workers" => Some(Workers)
    case "priority" => Some(Priority)
    case _ => None
  }

  datatype SortKey = Text(text: string) | Number(number: int)

  /** `getSortable[columnId](job)` */
  function KeyOf(c: Column, job: Job): (k: SortKey)
    ensures k.Text? <==> c in {Name, Area, Address}
  {
    match c
    case Name => Text(job.name)
    case Area => Text(job.area.GetOr(""))
    case Address => Text(job.address)
    case DaysPlanned => Number(job.activeJobs)
    case DaysLeft => Number(|job.availability|)
    case Workers => Number(job.minWorkers)
    case Priority => Number(job.priority)
  }

  /** JavaScript's `<` on two keys of the same column. */
  predicate KeyLess(a: SortKey, b: SortKey) {
    match (a, b)
    case (Text(x), Text(y)) => LexLess(x, y)
    case (Number(x), Number(y)) => x < y
    case _ => false
  }

  /** The comparator: `x` goes first when its key is smaller (`asc`) or larger (`desc`). */
  function Precedes(c: Column, d: Direction): (Job, Job) -> bool {
    (x: Job, y: Job) =>
      if d == Desc then KeyLess(KeyOf(c, y), KeyOf(c, x)) else KeyLess(KeyOf(c, x), KeyOf(c, y))
  }

  lemma KeyLessOrder(a: SortKey, b: SortKey, e: SortKey)
    requires a.Text? == b.Text? == e.Text?
    ensures KeyLess(a, b) ==> !KeyLess(b, a)
    ensures !KeyLess(a, b) && !KeyLess(b, e) ==> !KeyLess(a, e)
  {
    if a.Text? {
      LexLessAsymmetric(a.text, b.text);
      if !KeyLess(a, b) && !KeyLess(b, e) {
        LexNotLessTransitive(a.text, b.text, e.text);
      }
    }
  }

  /** Every column and direction gives a comparator the sort can rely on. */
  lemma PrecedesOrder(c: Column, d: Direction)
    ensures StrictWeakOrder(Precedes(c, d))
  {
    var less := Precedes(c, d);
    forall x, y, z
      ensures less(x, y) ==> !less(y, x)
      ensures !less(x, y) && !less(y, z) ==> !less(x, z)
    {
      var kx, ky, kz := KeyOf(c, x), KeyOf(c, y), KeyOf(c, z);
      if d == Desc {
        KeyLessOrder(ky, kx, kx);
        KeyLessOrder(kz, ky, kx);
      } else {
        KeyLessOrder(kx, ky, kz);
      }
    }
  }

  /**
   * `sortJobs(data, sortOrder)`: without a column, `data` itself; for a column outside
   * `getSortable`, an unsorted copy; otherwise a copy sorted by the column's key.
   */
  function SortJobs(data: seq<Job>, order: SortOrder): (r: seq<Job>)
    ensures order.columnId.None? ==> r == data
    ensures order.columnId.Some? && ColumnOf(order.columnId.value).None? ==> r == data
    ensures multiset(r) == multiset(data)
    ensures order.columnId.Some? && ColumnOf(order.columnId.value).Some? ==>
      Sorted(r, Precedes(ColumnOf(order.columnId.value).value, order.direction))
  {
    match order.columnId
    case None => data
    case Some(id) =>
      match ColumnOf(id)
      case None => data
      case Some(c) =>
        PrecedesOrder(c, order.direction);
        SortSorted(data, Precedes(c, order.direction));
        Sort(data, Precedes(c, order.direction))
  }

  /**
   * In the result of sorting by a column, keys never go down for `asc` and never go up
   * for `desc`; for a numeric column that is plain `<=` and `>=`.
   */
  lemma SortJobsKeys(data: seq<Job>, id: string, d: Direction, i: int, j: int)
    requires ColumnOf(id).Some?
    requires 0 <= i < j < |SortJobs(data, SortOrder(Some(id), d))|
    ensures var r, c := SortJobs(data, SortOrder(Some(id), d)), ColumnOf(id).value;
      if d == Asc then !KeyLess(KeyOf(c, r[j]), KeyOf(c, r[i])) else !KeyLess(KeyOf(c, r[i]), KeyOf(c, r[j]))
    ensures var r, c := SortJobs(data, SortOrder(Some(id), d)), ColumnOf(id).value;
      KeyOf(c, r[i]).Number? ==>
        if d == Asc then KeyOf(c, r[i]).number <= KeyOf(c, r[j]).number
        else KeyOf(c, r[i]).number >= KeyOf(c, r[j]).number
  {
  }

  /** Sorting an already sorted table again changes nothing. */
  lemma SortJobsIdempotent(data: seq<Job>, order: SortOrder)
    ensures SortJobs(SortJobs(data, order), order) == SortJobs(data, order)
  {
    if order.columnId.Some? && ColumnOf(order.columnId.value).Some? {
      var c := ColumnOf(order.columnId.value).value;
      PrecedesOrder(c, order.direction);
      SortIdempotent(data, Precedes(c, order.direction));
    }
  }

  // ---------------------------------------------------------------- the table

  /** `sortedData`, `sortedCompleted` and `sortedHidden`. */
  datatype View = View(main: seq<Job>, completed: seq<Job>, hidden: seq<Job>)

  function TableView(data: seq<Job>, workerId: string, order: SortOrder): View {
    View(
      SortJobs(BucketJobs(data, workerId, Pinned), order) + SortJobs(BucketJobs(data, workerId, Regular), order),
      SortJobs(BucketJobs(data, workerId, Completed), order),
      SortJobs(BucketJobs(data, workerId, Hidden), order))
  }

  /** Sorting keeps exactly the jobs it is given. */
  lemma SortJobsMembers(s: seq<Job>, order: SortOrder, job: Job)
    ensures job in SortJobs(s, order) <==> job in s
  {
    assert job in SortJobs(s, order) <==> job in multiset(SortJobs(s, order));
  }

  /**
   * The main list holds exactly the jobs that are neither hidden nor completed, the
   * completed list the completed jobs that are not hidden, and the hidden list the
   * hidden jobs.
   */
  lemma TableViewMembers(data: seq<Job>, workerId: string, order: SortOrder, job: Job)
    ensures var v := TableView(data, workerId, order);
      job in v.main <==> job in data && !job.hidden && !job.completed
    ensures var v := TableView(data, workerId, order);
      job in v.completed <==> job in data && !job.hidden && job.completed
    ensures var v := TableView(data, workerId, order);
      job in v.hidden <==> job in data && job.hidden
  {
    BucketsExclusive(data, workerId, job, Pinned);
    BucketsExclusive(data, workerId, job, Regular);
    BucketsExclusive(data, workerId, job, Completed);
    BucketsExclusive(data, workerId, job, Hidden);
    SortJobsMembers(BucketJobs(data, workerId, Pinned), order, job);
    SortJobsMembers(BucketJobs(data, workerId, Regular), order, job);
    SortJobsMembers(BucketJobs(data, workerId, Completed), order, job);
    SortJobsMembers(BucketJobs(data, workerId, Hidden), order, job);
  }

  /** In the main list the jobs this worker pinned come first, and only they. */
  lemma TableViewPinnedFirst(data: seq<Job>, workerId: string, order: SortOrder)
    ensures var v := TableView(data, workerId, order);
      forall i :: 0 <= i < |v.main| ==>
        (IsPinnedBy(v.main[i], workerId) <==> i < |BucketJobs(data, workerId, Pinned)|)
  {
    var v := TableView(data, workerId, order);
    var p := SortJobs(BucketJobs(data, workerId, Pinned), order);
    var g := SortJobs(BucketJobs(data, workerId, Regular), order);
    forall i | 0 <= i < |v.main|
      ensures IsPinnedBy(v.main[i], workerId) <==> i < |BucketJobs(data, workerId, Pinned)|
    {
      var job := v.main[i];
      if i < |p| {
        assert job == p[i];
        SortJobsMembers(BucketJobs(data, workerId, Pinned), order, job);
        BucketsExclusive(data, workerId, job, Pinned);
      } else {
        assert job == g[i - |p|];
        SortJobsMembers(BucketJobs(data, workerId, Regular), order, job);
        BucketsExclusive(data, workerId, job, Regular);
      }
    }
  }

  /** The three lists together are a permutation of `data`: no job is lost or shown twice. */
  lemma TableViewPermutation(data: seq<Job>, workerId: string, order: SortOrder)
    ensures var v := TableView(data, workerId, order);
      multiset(v.main) + multiset(v.completed) + multiset(v.hidden) == multiset(data)
  {
    BucketsPermutation(data, workerId);
  }
}
