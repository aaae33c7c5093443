/**
 The comparison log over the transport, under every interleaving: what a reader of the log channel
 is delivered parses to whole records of a single run.
 */
module LogTransport {
  import opened Bytes
  import opened CmpLog
  import CovRuntime
  import opened ShmProtocol
  import opened ShmSafety
  import opened ShmTheorems

  ghost predicate AllRuntime(es: seq<Entry>) {
    forall e | e in es :: CovRuntime.IsRuntimeEntry(e)
  }

  /** `data` is the log buffer of a run that logged the pairs `es`. */
  ghost predicate IsLogOf(data: seq<byte>, es: seq<Entry>) {
    AllRuntime(es) && data == CovRuntime.LogAll(es)
  }

  /** Every publish the schedule asks for, as a call or from a handler, is of some run's log. */
  ghost predicate PublishesLogs(schedule: seq<Step>) {
    forall data: seq<byte> :: Offered(schedule, data) ==> exists es: seq<Entry> :: IsLogOf(data, es)
  }

  /** A log cut at both capacities parses to the pairs whole in it, to all of the first 3449 if nothing is cut. */
  lemma CutLogParses(es: seq<Entry>, outCap: nat)
    requires AllRuntime(es)
    ensures
      var log, kept := CovRuntime.LogAll(es), Take(es, CovRuntime.CMP_MAX_RECORDS);
      var bytes := Take(Take(log, CovRuntime.CMP_MAX_BYTES), outCap);
      && Parse(bytes) == kept[..WholeRecords(kept, |bytes|)]
      && (outCap >= CovRuntime.CMP_MAX_BYTES ==> Parse(bytes) == kept)
  {
    var log, kept := CovRuntime.LogAll(es), Take(es, CovRuntime.CMP_MAX_RECORDS);
    CovRuntime.LogIsFirstRecords(es);
    assert Take(log, CovRuntime.CMP_MAX_BYTES) == log;
    CovRuntime.KeptIsParsed(kept, Min(outCap, |log|));
  }

  /**
   Whatever the interleaving of resets, publishes, signals and readers, a call on the log channel
   that returns 1 after a nonzero generation parses to the first pairs of one run whose log was
   published: as many as are whole in the reader's buffer, and all of the first 3449 if that
   buffer is as large as the log.
   */
  lemma {:induction false} LogReadsAreOneRun(n: nat, schedule: seq<Step>, o: Outcome) returns (es: seq<Entry>)
    requires Careful(Init(CovRuntime.CMP_MAX_BYTES, n), schedule) && PublishesLogs(schedule)
    requires Logged(Exec(Init(CovRuntime.CMP_MAX_BYTES, n), schedule), o) && Delivered(o) && Unwrapped(o)
    ensures AllRuntime(es) && Offered(schedule, CovRuntime.LogAll(es))
    ensures
      var kept := Take(es, CovRuntime.CMP_MAX_RECORDS);
      && Parse(o.bytes) == kept[..WholeRecords(kept, |o.bytes|)]
      && (o.call.outCap >= CovRuntime.CMP_MAX_BYTES ==> Parse(o.bytes) == kept)
  {
    var cap := CovRuntime.CMP_MAX_BYTES;
    NoTornRead(cap, n, schedule, o);
    var snap := Exec(Init(cap, n), schedule).hist.snaps[o.commit - 1];
    var data: seq<byte> :| Offered(schedule, data) && snap == Take(data, cap);
    es :| IsLogOf(data, es);
    CutLogParses(es, o.call.outCap);
  }
}
