/** The service worker's scheduler and download-name slot: a list of scheduled jobs and
    the alarms registered for them, both kept here as in-memory state (the source keeps
    the list in extension storage and the alarms in the browser), and the one-shot name
    for the next download. Times are milliseconds passed in as `now`. */
module Background {
  import opened Opt
  import opened Tasks

  const HourMs: int := 3600000
  const DayMs: int := 86400000

  datatype JobStatus = Scheduled | Completed

  /** A scheduled job. `repeat` is `""` for a one-time job (the panel sends `null`),
      `settings` is the serialised settings object, and `lastRun` is 0 until a repeating
      job first fires. */
  datatype Job = Job(id: string, scheduledTime: int, repeat: string, tasks: seq<Task>, settings: string,
                     status: JobStatus, createdAt: int, lastRun: int)

  /** `calculateNextRun`, with days and hours as fixed lengths. */
  function CalculateNextRun(currentTime: int, repeat: string): int {
    if repeat == "daily" then currentTime + DayMs
    else if repeat == "weekly" then currentTime + 7 * DayMs
    else if repeat == "hourly" then currentTime + HourMs
    else currentTime
  }

  /** The next run is never earlier, and is later exactly for the three known repeat
      values; any other value re-arms the job at the time it just fired. */
  lemma CalculateNextRunSpec(currentTime: int, repeat: string)
    ensures CalculateNextRun(currentTime, repeat) >= currentTime
    ensures CalculateNextRun(currentTime, repeat) > currentTime <==> repeat in {"hourly", "daily", "weekly"}
    ensures CalculateNextRun(currentTime, "weekly") - currentTime == 7 * (CalculateNextRun(currentTime, "daily") - currentTime)
    ensures CalculateNextRun(currentTime, "daily") - currentTime == 24 * (CalculateNextRun(currentTime, "hourly") - currentTime)
  {
  }

  /** The job `handleScheduleJob` appends. */
  function NewJob(id: string, scheduledTime: int, repeat: string, tasks: seq<Task>, settings: string, now: int): Job {
    Job(id, scheduledTime, repeat, tasks, settings, Scheduled, now, 0)
  }

  /** `jobs.filter(j => j.id !== jobId)`. */
  function RemoveJob(jobs: seq<Job>, id: string): (r: seq<Job>)
    ensures |r| <= |jobs|
    ensures forall k :: 0 <= k < |r| ==> r[k].id != id && r[k] in jobs
  {
    if |jobs| == 0 then []
    else (if jobs[0].id != id then [jobs[0]] else []) + RemoveJob(jobs[1..], id)
  }

  lemma {:induction false} RemoveJobAppend(a: seq<Job>, b: seq<Job>, id: string)
    ensures RemoveJob(a + b, id) == RemoveJob(a, id) + RemoveJob(b, id)
  {
    if |a| > 0 {
      RemoveJobAppend(a[1..], b, id);
      assert (a + b)[1..] == a[1..] + b;
    } else {
      assert a + b == b;
    }
  }

  /** Cancelling removes every job with the id and keeps all the others: a job stays
      exactly when its id differs. */
  lemma {:induction false} RemoveJobSpec(jobs: seq<Job>, id: string, j: Job)
    ensures j in RemoveJob(jobs, id) <==> j in jobs && j.id != id
  {
    if |jobs| > 0 {
      RemoveJobSpec(jobs[1..], id, j);
      assert jobs == [jobs[0]] + jobs[1..];
    }
  }

  /** Cancelling an id no job has leaves the list as it is, order included. */
  lemma {:induction false} RemoveJobAbsent(jobs: seq<Job>, id: string)
    requires forall k :: 0 <= k < |jobs| ==> jobs[k].id != id
    ensures RemoveJob(jobs, id) == jobs
  {
    if |jobs| > 0 {
      RemoveJobAbsent(jobs[1..], id);
      assert jobs == [jobs[0]] + jobs[1..];
    }
  }

  /** Scheduling a job whose id is new and cancelling it right away restores the job list,
      and leaves no alarm for the id. */
  lemma CancelUndoesSchedule(jobs: seq<Job>, alarms: map<string, int>, id: string, scheduledTime: int,
                             repeat: string, tasks: seq<Task>, settings: string, now: int)
    requires forall k :: 0 <= k < |jobs| ==> jobs[k].id != id
    ensures RemoveJob(jobs + [NewJob(id, scheduledTime, repeat, tasks, settings, now)], id) == jobs
    ensures alarms[id := scheduledTime] - {id} == alarms - {id}
  {
    var job := NewJob(id, scheduledTime, repeat, tasks, settings, now);
    RemoveJobAppend(jobs, [job], id);
    RemoveJobAbsent(jobs, id);
    assert RemoveJob([job], id) == [] by {
      assert [job][1..] == [];
    }
  }

  /** `jobs.find(j => j.id === alarm.name)`. */
  function FindJob(jobs: seq<Job>, id: string): (r: Option<nat>)
    ensures r.Some? ==> (r.value < |jobs| && jobs[r.value].id == id
      && forall k :: 0 <= k < r.value ==> jobs[k].id != id)
    ensures r.None? ==> forall k :: 0 <= k < |jobs| ==> jobs[k].id != id
  {
    if |jobs| == 0 then None
    else if jobs[0].id == id then Some(0)
    else match FindJob(jobs[1..], id)
      case Some(k) => Some(k + 1)
      case None => None
  }

  /** `jobs.map(j => j.id === job.id ? job : j)`. */
  function ReplaceAll(jobs: seq<Job>, id: string, job: Job): (r: seq<Job>)
    ensures |r| == |jobs|
    ensures forall k :: 0 <= k < |r| ==> r[k] == if jobs[k].id == id then job else jobs[k]
  {
    seq(|jobs|, k requires 0 <= k < |jobs| => if jobs[k].id == id then job else jobs[k])
  }

  /** The jobs and alarms after an alarm fires, and the job sent to the panel. */
  datatype Fired = Fired(jobs: seq<Job>, alarms: map<string, int>, message: Option<Job>)

  /** The alarm handler. The fired alarm itself is used up: an alarm set for one time
      fires once. */
  function Fire(jobs: seq<Job>, alarms: map<string, int>, name: string, now: int): Fired {
    var rest := alarms - {name};
    match FindJob(jobs, name)
    case None => Fired(jobs, rest, None)
    case Some(k) =>
      var job := jobs[k];
      if job.repeat != "" then
        var nextTime := CalculateNextRun(job.scheduledTime, job.repeat);
        Fired(ReplaceAll(jobs, name, job.(scheduledTime := nextTime, lastRun := now)), rest[name := nextTime], Some(job))
      else
        Fired(ReplaceAll(jobs, name, job.(status := Completed)), rest, Some(job))
  }

  /** Firing an alarm: with no job of that name nothing is sent and no job changes. With
      one, the first such job is sent to the panel once. A repeating job moves on from its
      previous scheduled time (not from `now`), is re-armed for then and keeps its
      status; a one-time job is completed and gets no new alarm. Every job with that id
      takes the first one's new value, and the other jobs and alarms are unchanged. */
  lemma FireSpec(jobs: seq<Job>, alarms: map<string, int>, name: string, now: int)
    ensures var f := Fire(jobs, alarms, name, now);
      |f.jobs| == |jobs|
      && (forall k :: 0 <= k < |jobs| && jobs[k].id != name ==> f.jobs[k] == jobs[k])
      && (forall other :: other != name ==> (other in f.alarms <==> other in alarms))
      && (forall other :: other != name && other in alarms ==> f.alarms[other] == alarms[other])
      && (f.message.None? <==> forall k :: 0 <= k < |jobs| ==> jobs[k].id != name)
      && (f.message.None? ==> f.jobs == jobs && name !in f.alarms)
      && (f.message.Some? ==>
            var job := f.message.value;
            job in jobs && job.id == name
            && (job.repeat != "" ==>
                  name in f.alarms && f.alarms[name] == CalculateNextRun(job.scheduledTime, job.repeat)
                  && forall k :: 0 <= k < |jobs| && jobs[k].id == name ==>
                       f.jobs[k] == job.(scheduledTime := CalculateNextRun(job.scheduledTime, job.repeat), lastRun := now)
                       && f.jobs[k].status == job.status)
            && (job.repeat == "" ==>
                  name !in f.alarms
                  && forall k :: 0 <= k < |jobs| && jobs[k].id == name ==>
                       f.jobs[k] == job.(status := Completed)))
  {
  }

  /** A one-time job never fires twice: after its alarm has fired no alarm is left for it. */
  lemma OneTimeFiresOnce(jobs: seq<Job>, alarms: map<string, int>, name: string, now: int)
    requires FindJob(jobs, name).Some? && jobs[FindJob(jobs, name).value].repeat == ""
    ensures name !in Fire(jobs, alarms, name, now).alarms
    ensures forall k :: 0 <= k < |jobs| && jobs[k].id == name ==> Fire(jobs, alarms, name, now).jobs[k].status == Completed
  {
  }

  /** `onDeterminingFilename` on the slot: a set name (`""` for none) is suggested and
      the slot cleared. */
  function Suggest(slot: string): (Option<string>, string) {
    if slot != "" then (Some(slot), "") else (None, slot)
  }

  /** A name set once is used by exactly one download: the next one gets the default. */
  lemma SuggestOneShot(name: string)
    requires name != ""
    ensures Suggest(name).0 == Some(name)
    ensures Suggest(Suggest(name).1).0 == None
  {
  }

  /** The service worker's state. */
  class Scheduler {
    var jobs: seq<Job>
    var alarms: map<string, int>
    var nextDownloadName: string

    constructor()
      ensures jobs == [] && alarms == map[] && nextDownloadName == ""
    {
      jobs := [];
      alarms := map[];
      nextDownloadName := "";
    }

    /** `handleScheduleJob`: the job is appended and an alarm registered for its time. */
    method ScheduleJob(id: string, scheduledTime: int, repeat: string, tasks: seq<Task>, settings: string, now: int)
      modifies this
      ensures jobs == old(jobs) + [NewJob(id, scheduledTime, repeat, tasks, settings, now)]
      ensures alarms == old(alarms)[id := scheduledTime]
      ensures nextDownloadName == old(nextDownloadName)
    {
      jobs := jobs + [NewJob(id, scheduledTime, repeat, tasks, settings, now)];
      alarms := alarms[id := scheduledTime];
    }

    /** `handleCancelJob`: the alarm is cleared and every job with the id removed. */
    method CancelJob(id: string)
      modifies this
      ensures alarms == old(alarms) - {id}
      ensures jobs == RemoveJob(old(jobs), id)
      ensures nextDownloadName == old(nextDownloadName)
    {
      alarms := alarms - {id};
      jobs := RemoveJob(jobs, id);
    }

    /** `getScheduledJobs`. */
    method GetScheduledJobs() returns (r: seq<Job>)
      ensures r == jobs
    {
      r := jobs;
    }

    /** The alarm listener: returns the job sent with `EXECUTE_SCHEDULED_JOB`, if any. */
    method OnAlarm(name: string, now: int) returns (message: Option<Job>)
      modifies this
      ensures Fired(jobs, alarms, message) == Fire(old(jobs), old(alarms), name, now)
      ensures nextDownloadName == old(nextDownloadName)
    {
      alarms := alarms - {name};
      var found := FindJob(jobs, name);
      if found.None? {
        return None;
      }
      var job := jobs[found.value];
      message := Some(job);
      if job.repeat != "" {
        var nextTime := CalculateNextRun(job.scheduledTime, job.repeat);
        alarms := alarms[job.id := nextTime];
        job := job.(scheduledTime := nextTime, lastRun := now);
      } else {
        job := job.(status := Completed);
      }
      jobs := ReplaceAll(jobs, name, job);
    }

    /** `SET_NEXT_DOWNLOAD_NAME`. */
    method SetNextDownloadName(filename: string)
      modifies this
      ensures nextDownloadName == filename
      ensures jobs == old(jobs) && alarms == old(alarms)
    {
      nextDownloadName := filename;
    }

    /** `onDeterminingFilename`: returns the suggested name, `None` for the default. */
    method SuggestFilename() returns (suggested: Option<string>)
      modifies this
      ensures (suggested, nextDownloadName) == Suggest(old(nextDownloadName))
      ensures jobs == old(jobs) && alarms == old(alarms)
    {
      if nextDownloadName != "" {
        suggested := Some(nextDownloadName);
        nextDownloadName := "";
      } else {
        suggested := None;
      }
    }
  }
}
