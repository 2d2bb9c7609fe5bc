/**
 * The rides of a planned job (web/summerjob/lib/components/plan/JobRideList.tsx): for
 * each ride, its number, its occupancy, and the passengers who work on other jobs,
 * grouped by those jobs.
 */
module JobRideList {
  import opened Wrappers
  import opened Seqs

  datatype Person = Person(id: string, firstName: string, lastName: string)

  datatype Ride = Ride(id: string, carName: string, seats: int, driver: Person, passengers: seq<Person>)

  /** A planned job: the name of its proposed job, its workers and its rides. */
  datatype ActiveJob = ActiveJob(name: string, workers: seq<Person>, rides: Option<seq<Ride>>)

  /** `people.map(p => p.id)` */
  function Ids(people: seq<Person>): (ids: seq<string>)
    ensures |ids| == |people|
    ensures forall i :: 0 <= i < |people| ==> ids[i] == people[i].id
  {
    seq(|people|, i requires 0 <= i < |people| => people[i].id)
  }

  function NotInJob(job: ActiveJob): Person -> bool {
    (p: Person) => p.id !in Ids(job.workers)
  }

  /** `passengersFromOtherJobsIds`: the ride's passengers who are not workers of this job, in order. */
  function OtherJobPassengerIds(ride: Ride, job: ActiveJob): seq<string> {
    Ids(Filter(ride.passengers, NotInJob(job)))
  }

  /** Taking ids keeps a subsequence a subsequence. */
  lemma {:induction false} IdsSubseq(a: seq<Person>, b: seq<Person>)
    requires Subseq(a, b)
    ensures Subseq(Ids(a), Ids(b))
    decreases |b|
  {
    if a != [] {
      assert Ids(a)[1..] == Ids(a[1..]);
      assert Ids(b)[1..] == Ids(b[1..]);
      if a[0] == b[0] {
        IdsSubseq(a[1..], b[1..]);
      } else {
        IdsSubseq(a, b[1..]);
        if Ids(a)[0] == Ids(b)[0] {
          SubseqWeaken(Ids(a), Ids(b[1..]));
        }
      }
    }
  }

  /**
   * An id is listed exactly when it is a passenger's and not a worker's of this job, and
   * the ids come in the order of the ride's passengers.
   */
  lemma OtherJobPassengerIdsSpec(ride: Ride, job: ActiveJob, id: string)
    ensures id in OtherJobPassengerIds(ride, job) <==> id in Ids(ride.passengers) && id !in Ids(job.workers)
    ensures Subseq(OtherJobPassengerIds(ride, job), Ids(ride.passengers))
    ensures |OtherJobPassengerIds(ride, job)| <= |ride.passengers|
  {
    var kept := Filter(ride.passengers, NotInJob(job));
    FilterSubseq(ride.passengers, NotInJob(job));
    IdsSubseq(kept, ride.passengers);
    if id in OtherJobPassengerIds(ride, job) {
      var i :| 0 <= i < |kept| && Ids(kept)[i] == id;
      FilterMembership(ride.passengers, NotInJob(job), kept[i]);
      var j :| 0 <= j < |ride.passengers| && ride.passengers[j] == kept[i];
      assert Ids(ride.passengers)[j] == id;
    }
    if id in Ids(ride.passengers) && id !in Ids(job.workers) {
      var j :| 0 <= j < |ride.passengers| && Ids(ride.passengers)[j] == id;
      FilterMembership(ride.passengers, NotInJob(job), ride.passengers[j]);
      var i :| 0 <= i < |kept| && kept[i] == ride.passengers[j];
      assert Ids(kept)[i] == id;
    }
  }

  // ---------------------------------------------------------------- groups

  datatype Group = Group(jobName: string, passengers: seq<Person>)

  function InRide(ids: seq<string>): Person -> bool {
    (w: Person) => w.id in ids
  }

  /** `workersInThisRide` for one other job. */
  function RidersOf(other: ActiveJob, ids: seq<string>): seq<Person> {
    Filter(other.workers, InRide(ids))
  }

  /** The groups the loop over `otherJobs` pushes: one per other job with riders, in order. */
  function Groups(otherJobs: seq<ActiveJob>, ids: seq<string>): seq<Group> {
    if otherJobs == [] then []
    else
      var init, last := otherJobs[..|otherJobs| - 1], otherJobs[|otherJobs| - 1];
      Groups(init, ids) + (if RidersOf(last, ids) == [] then [] else [Group(last.name, RidersOf(last, ids))])
  }

  /** `passengersFromOtherJobsData`: the `for … of otherJobs` loop, skipping jobs without riders. */
  method PassengerGroups(ride: Ride, job: ActiveJob, otherJobs: seq<ActiveJob>) returns (data: seq<Group>)
    ensures data == Groups(otherJobs, OtherJobPassengerIds(ride, job))
  {
    var ids := Ids(Filter(ride.passengers, NotInJob(job)));
    data := [];
    for i := 0 to |otherJobs|
      invariant data == Groups(otherJobs[..i], ids)
    {
      var otherJob := otherJobs[i];
      assert otherJobs[..i + 1][..i] == otherJobs[..i];
      var workersInThisRide := Filter(otherJob.workers, InRide(ids));
      if |workersInThisRide| != 0 {
        data := data + [Group(otherJob.name, workersInThisRide)];
      }
    }
    assert otherJobs[..|otherJobs|] == otherJobs;
  }

  /**
   * There is at most one group per other job, no group is empty, and each group is
   * exactly the riders of one of the other jobs; conversely every other job with a
   * rider has its group.
   */
  lemma {:induction false} GroupsSpec(otherJobs: seq<ActiveJob>, ids: seq<string>)
    ensures |Groups(otherJobs, ids)| <= |otherJobs|
    ensures forall g :: g in Groups(otherJobs, ids) ==> g.passengers != []
    ensures forall g :: g in Groups(otherJobs, ids) ==>
      exists k :: 0 <= k < |otherJobs| && g == Group(otherJobs[k].name, RidersOf(otherJobs[k], ids))
    ensures forall k :: 0 <= k < |otherJobs| && RidersOf(otherJobs[k], ids) != [] ==>
      Group(otherJobs[k].name, RidersOf(otherJobs[k], ids)) in Groups(otherJobs, ids)
  {
    if otherJobs != [] {
      var init := otherJobs[..|otherJobs| - 1];
      GroupsSpec(init, ids);
      forall g | g in Groups(otherJobs, ids)
        ensures exists k :: 0 <= k < |otherJobs| && g == Group(otherJobs[k].name, RidersOf(otherJobs[k], ids))
      {
        if g in Groups(init, ids) {
          var k :| 0 <= k < |init| && g == Group(init[k].name, RidersOf(init[k], ids));
          assert otherJobs[k] == init[k];
        }
      }
      forall k | 0 <= k < |otherJobs| && RidersOf(otherJobs[k], ids) != []
        ensures Group(otherJobs[k].name, RidersOf(otherJobs[k], ids)) in Groups(otherJobs, ids)
      {
        if k < |init| {
          assert otherJobs[k] == init[k];
        }
      }
    }
  }

  function HasRiders(ids: seq<string>): ActiveJob -> bool {
    (other: ActiveJob) => RidersOf(other, ids) != []
  }

  /** The group of each of `jobs`, in order. */
  function GroupsOf(jobs: seq<ActiveJob>, ids: seq<string>): (gs: seq<Group>)
    ensures |gs| == |jobs|
    ensures forall i :: 0 <= i < |jobs| ==> gs[i] == Group(jobs[i].name, RidersOf(jobs[i], ids))
  {
    seq(|jobs|, i requires 0 <= i < |jobs| => Group(jobs[i].name, RidersOf(jobs[i], ids)))
  }

  /**
   * The groups are the other jobs that have riders, kept in `otherJobs` order, each
   * turned into its group: one group per such entry of `otherJobs` and no other.
   */
  lemma {:induction false} GroupsAreJobsWithRiders(otherJobs: seq<ActiveJob>, ids: seq<string>)
    ensures Groups(otherJobs, ids) == GroupsOf(Filter(otherJobs, HasRiders(ids)), ids)
  {
    if otherJobs != [] {
      var init, last := otherJobs[..|otherJobs| - 1], otherJobs[|otherJobs| - 1];
      GroupsAreJobsWithRiders(init, ids);
      assert otherJobs == init + [last];
      FilterConcat(init, [last], HasRiders(ids));
      assert [last][1..] == [];
      var a, b := Filter(init, HasRiders(ids)), Filter([last], HasRiders(ids));
      assert GroupsOf(a + b, ids) == GroupsOf(a, ids) + GroupsOf(b, ids);
    }
  }

  /**
   * A passenger listed in a group works on that other job, rides in this ride and is not
   * a worker of this job.
   */
  lemma ListedPassenger(ride: Ride, job: ActiveJob, other: ActiveJob, p: Person)
    requires p in RidersOf(other, OtherJobPassengerIds(ride, job))
    ensures p in other.workers
    ensures p.id in Ids(ride.passengers) && p.id !in Ids(job.workers)
  {
    FilterMembership(other.workers, InRide(OtherJobPassengerIds(ride, job)), p);
    OtherJobPassengerIdsSpec(ride, job, p.id);
  }

  // ---------------------------------------------------------------- the list

  /** The header line of a ride: its number, car, driver and `occupied/seats`. */
  datatype RideLine = RideLine(number: int, carName: string, driver: Person, occupied: int, seats: int, groups: seq<Group>)

  /** `formatSingleRide(ride, index)`: the driver takes a seat too. */
  function FormatSingleRide(ride: Ride, index: int, job: ActiveJob, otherJobs: seq<ActiveJob>): (line: RideLine)
    ensures line.occupied == |ride.passengers| + 1 && line.seats == ride.seats
    ensures line.number == index + 1
  {
    RideLine(index + 1, ride.carName, ride.driver, |ride.passengers| + 1, ride.seats,
             Groups(otherJobs, OtherJobPassengerIds(ride, job)))
  }

  datatype Rendered = Placeholder(text: string) | RideLines(lines: seq<RideLine>)

  const NoRides: string := "Nen\U{00ED}"

  /** `JobRideList({ job, otherJobs })` */
  function RenderJobRides(job: ActiveJob, otherJobs: seq<ActiveJob>): Rendered {
    match job.rides
    case None => Placeholder(NoRides)
    case Some(rides) =>
      if |rides| == 0 then Placeholder(NoRides)
      else RideLines(seq(|rides|, i requires 0 <= i < |rides| => FormatSingleRide(rides[i], i, job, otherJobs)))
  }

  /**
   * A job without rides shows only the placeholder; otherwise there is one line per
   * ride, in order, numbered from 1.
   */
  lemma RenderJobRidesSpec(job: ActiveJob, otherJobs: seq<ActiveJob>)
    ensures RenderJobRides(job, otherJobs).Placeholder? <==> job.rides.None? || job.rides.value == []
    ensures RenderJobRides(job, otherJobs).Placeholder? ==> RenderJobRides(job, otherJobs).text == NoRides
    ensures RenderJobRides(job, otherJobs).RideLines? ==>
      var lines := RenderJobRides(job, otherJobs).lines;
      |lines| == |job.rides.value|
      && forall i :: 0 <= i < |lines| ==>
        lines[i].number == i + 1 && lines[i].occupied == |job.rides.value[i].passengers| + 1
  {
  }
}
