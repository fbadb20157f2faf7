/**
 * The batch e-mail dispatch script: pre-flight checks on the subject and the
 * three Microsoft Graph credentials, loading the recipient rows with an
 * optional address pattern, rendering and sending one message per row, and
 * collecting the failures into a report table.
 *
 * The collaborators the script calls but does not define (the template's
 * render, the mail client's send_mail, json.dumps and re.match) are carried
 * as functions in a `Collaborators` value; every property below holds for
 * all of them. The thread pool's map is modelled per job: row i is job i,
 * the mail client sees the job number with each call, and the results come
 * back in input order; the order in which concurrent jobs reach the mail
 * client is not modelled.
 */
module SendEmails {

  datatype Option<T> = None | Some(value: T)

  /** One CSV row: column name to cell text. */
  type Row = map<string, string>

  /** The column every row is expected to carry the recipient address in. */
  const AddressKey: string := "email_address"

  /** Names the script reports a missing credential by, in the order it checks them. */
  const TenantIdKey: string := "msgraph_tenant_id"
  const ClientIdKey: string := "msgraph_client_id"
  const ClientSecretKey: string := "msgraph_client_secret"

  /** Column names of the failure export, in the order the failure dictionary is built. */
  const FailureColumns: seq<string> := ["mail", "row", "error", "html_content"]

  /** What the template's render did with a row. */
  datatype Rendering = Rendered(body: string) | RenderRaised

  /** What the mail client's send did: returned normally, or raised with this text. */
  datatype Delivery = Delivered | SendRaised(error: string)

  /** One call to the mail client: subject, recipient address, HTML body. */
  datatype Mail = Mail(subject: string, recipient: string, body: string)

  /** The collaborators the script uses but does not define. */
  datatype Collaborators = Collaborators(
    render: Row -> Rendering,          // the loaded template's render(row)
    sendMail: (nat, Mail) -> Delivery, // SimpleSendMail.send_mail, for the job at this position of the batch
    serialise: Row -> string,          // json.dumps(row)
    matches: (string, string) -> bool  // re.match(pattern, address) is not None
  )

  /** The dictionary send_email returns when the send raised. */
  datatype FailureRecord = FailureRecord(mail: string, row: string, error: string, htmlContent: string)

  /** One send_email call: the mail-client calls it made (none or one) and what it returned (None or a failure). */
  datatype Step = Step(calls: seq<Mail>, result: Option<FailureRecord>)

  /**
   * The map over the loaded rows: for each row, its result and the mail-client
   * calls its job made. The jobs run concurrently, so no order between the
   * calls of different rows is recorded.
   */
  datatype Batch = Batch(results: seq<Option<FailureRecord>>, sends: seq<seq<Mail>>)

  /** The fatal errors that end the run before any row is sent. */
  datatype Abort = NoSubject | MissingCredential(key: string) | MissingAddress

  datatype RunOutcome =
    | Aborted(reason: Abort)
    | Completed(loaded: seq<Row>, batch: Batch, failures: seq<FailureRecord>, report: Option<seq<seq<string>>>)

  // ---------------------------------------------------------------------------
  // Pre-flight checks
  // ---------------------------------------------------------------------------

  /** A setting counts as given when it is neither None nor the empty string. */
  predicate Provided(v: Option<string>)
  {
    v.Some? && v.value != ""
  }

  /**
   * The credential check loop: stops at the first credential that is missing
   * or empty and names it; finds nothing exactly when all are given.
   */
  method FirstMissingCredential(creds: seq<(string, Option<string>)>) returns (missing: Option<string>)
    ensures missing.None? <==> forall i :: 0 <= i < |creds| ==> Provided(creds[i].1)
    ensures missing.Some? ==>
      exists i :: 0 <= i < |creds| && creds[i].0 == missing.value && !Provided(creds[i].1) &&
        forall j :: 0 <= j < i ==> Provided(creds[j].1)
  {
    for i := 0 to |creds|
      invariant forall j :: 0 <= j < i ==> Provided(creds[j].1)
    {
      var (key, value) := creds[i];
      if value.None? || value.value == "" {
        return Some(key);
      }
    }
    return None;
  }

  // ---------------------------------------------------------------------------
  // Loading the rows
  // ---------------------------------------------------------------------------

  /** The address pattern applies only when it is set and not empty. */
  predicate FilterActive(pattern: Option<string>)
  {
    pattern.Some? && pattern.value != ""
  }

  /** Whether the loader keeps a row: no active pattern, or its address matches. */
  predicate Keeps(row: Row, pattern: Option<string>, matches: (string, string) -> bool)
  {
    !FilterActive(pattern) || (AddressKey in row && matches(pattern.value, row[AddressKey]))
  }

  /** Every row carries an address column. */
  predicate AllAddressed(rows: seq<Row>)
  {
    forall i :: 0 <= i < |rows| ==> AddressKey in rows[i]
  }

  /** The rows the loader keeps, in input order. */
  function Kept(rows: seq<Row>, pattern: Option<string>, matches: (string, string) -> bool): (kept: seq<Row>)
    ensures |kept| <= |rows|
  {
    if rows == [] then []
    else
      var prev := Kept(rows[..|rows| - 1], pattern, matches);
      if Keeps(rows[|rows| - 1], pattern, matches) then prev + [rows[|rows| - 1]] else prev
  }

  /**
   * The CSV loader loop. With an active pattern a row without an address
   * column raises a KeyError, which the surrounding handler turns into a
   * fatal error (None here); otherwise the kept rows are appended in order.
   */
  method LoadRows(rows: seq<Row>, pattern: Option<string>, matches: (string, string) -> bool)
    returns (loaded: Option<seq<Row>>)
    ensures loaded.None? <==> FilterActive(pattern) && !AllAddressed(rows)
    ensures loaded.Some? ==> loaded.value == Kept(rows, pattern, matches)
  {
    var csvData: seq<Row> := [];
    for i := 0 to |rows|
      invariant csvData == Kept(rows[..i], pattern, matches)
      invariant FilterActive(pattern) ==> AllAddressed(rows[..i])
    {
      var row := rows[i];
      assert rows[..i + 1][..i] == rows[..i];
      if FilterActive(pattern) && AddressKey !in row {
        return None;
      }
      if FilterActive(pattern) && !matches(pattern.value, row[AddressKey]) {
        continue;
      }
      csvData := csvData + [row];
    }
    assert rows[..|rows|] == rows;
    return Some(csvData);
  }

  /** `kept` lists exactly the rows of `rows` at the increasing positions `idx`, and those are the rows the filter keeps. */
  ghost predicate SelectedBy(kept: seq<Row>, rows: seq<Row>, pattern: Option<string>,
                             matches: (string, string) -> bool, idx: seq<nat>)
  {
    && |idx| == |kept|
    && (forall j :: 0 <= j < |idx| ==> idx[j] < |rows| && kept[j] == rows[idx[j]])
    && (forall j, k :: 0 <= j < k < |idx| ==> idx[j] < idx[k])
    && (forall i :: 0 <= i < |rows| ==> (Keeps(rows[i], pattern, matches) <==> i in idx))
  }

  /** Positions of the kept rows, in increasing order. */
  ghost function KeptPositions(rows: seq<Row>, pattern: Option<string>, matches: (string, string) -> bool): seq<nat>
  {
    if rows == [] then []
    else
      var prev := KeptPositions(rows[..|rows| - 1], pattern, matches);
      if Keeps(rows[|rows| - 1], pattern, matches) then prev + [|rows| - 1] else prev
  }

  /**
   * A row is loaded if and only if the filter keeps it, and the loaded rows
   * keep their input order.
   */
  lemma {:induction false} KeptIsOrderedSelection(rows: seq<Row>, pattern: Option<string>, matches: (string, string) -> bool)
    ensures exists idx :: SelectedBy(Kept(rows, pattern, matches), rows, pattern, matches, idx)
  {
    KeptPositionsSelect(rows, pattern, matches);
  }

  /** KeptPositions is the witness of KeptIsOrderedSelection. */
  lemma {:induction false} KeptPositionsSelect(rows: seq<Row>, pattern: Option<string>, matches: (string, string) -> bool)
    ensures SelectedBy(Kept(rows, pattern, matches), rows, pattern, matches, KeptPositions(rows, pattern, matches))
  {
    if rows != [] {
      var init := rows[..|rows| - 1];
      KeptPositionsSelect(init, pattern, matches);
      var idx := KeptPositions(init, pattern, matches);
      assert forall i :: 0 <= i < |init| ==> init[i] == rows[i];
      assert forall j :: 0 <= j < |idx| ==> idx[j] < |init|;
    }
  }

  /** With no pattern configured (unset or empty) every row is loaded. */
  lemma {:induction false} UnfilteredKeepsAll(rows: seq<Row>, pattern: Option<string>, matches: (string, string) -> bool)
    requires !FilterActive(pattern)
    ensures Kept(rows, pattern, matches) == rows
  {
    if rows != [] {
      UnfilteredKeepsAll(rows[..|rows| - 1], pattern, matches);
      assert rows[..|rows| - 1] + [rows[|rows| - 1]] == rows;
    }
  }

  // ---------------------------------------------------------------------------
  // Sending one row
  // ---------------------------------------------------------------------------

  /**
   * send_email for the row submitted as job `job` of the batch. Reading the
   * address and rendering happen outside the try block: if either raises, the
   * logger's catch decorator swallows the exception and the call yields None
   * without sending. In dry-run mode the mail client is never called.
   * Otherwise the mail client is called exactly once; if it raises, the result
   * is a failure record with the row's address, the serialised row, the error
   * text and the rendered body.
   */
  function SendEmail(row: Row, job: nat, isDryRun: bool, subject: string, env: Collaborators): (s: Step)
    ensures |s.calls| <= 1
    ensures isDryRun ==> s.calls == [] && s.result == None
    ensures s.calls != [] <==> !isDryRun && AddressKey in row && env.render(row).Rendered?
    ensures s.calls != [] ==> s.calls == [Mail(subject, row[AddressKey], env.render(row).body)]
    ensures s.result.Some? <==> s.calls != [] && env.sendMail(job, s.calls[0]).SendRaised?
    ensures s.result.Some? ==>
      s.result.value == FailureRecord(row[AddressKey], env.serialise(row),
                                      env.sendMail(job, s.calls[0]).error, env.render(row).body)
  {
    if AddressKey !in row then Step([], None)
    else
      match env.render(row)
      case RenderRaised => Step([], None)
      case Rendered(body) =>
        if isDryRun then Step([], None)
        else
          var mail := Mail(subject, row[AddressKey], body);
          match env.sendMail(job, mail)
          case Delivered => Step([mail], None)
          case SendRaised(err) => Step([mail], Some(FailureRecord(row[AddressKey], env.serialise(row), err, body)))
  }

  // ---------------------------------------------------------------------------
  // The batch and its failures
  // ---------------------------------------------------------------------------

  /**
   * The executor's map of send_email over the loaded rows, row i submitted as
   * job i: exactly one result per row, in row order, each the result of that
   * row's own job; at most one mail-client call per row; in dry-run mode no
   * call and no failure at all.
   */
  function SendAll(rows: seq<Row>, isDryRun: bool, subject: string, env: Collaborators): (b: Batch)
    ensures |b.results| == |rows| && |b.sends| == |rows|
    ensures forall i {:trigger b.results[i]} :: 0 <= i < |rows| ==>
      b.results[i] == SendEmail(rows[i], i, isDryRun, subject, env).result
    ensures forall i {:trigger b.sends[i]} :: 0 <= i < |rows| ==>
      b.sends[i] == SendEmail(rows[i], i, isDryRun, subject, env).calls && |b.sends[i]| <= 1
    ensures isDryRun ==> forall i {:trigger b.sends[i]} :: 0 <= i < |rows| ==> b.sends[i] == [] && b.results[i] == None
  {
    if rows == [] then Batch([], [])
    else
      var prev := SendAll(rows[..|rows| - 1], isDryRun, subject, env);
      var step := SendEmail(rows[|rows| - 1], |rows| - 1, isDryRun, subject, env);
      Batch(prev.results + [step.result], prev.sends + [step.calls])
  }

  /** The collaborators as seen by jobs numbered from 0 that are jobs `first`, `first + 1`, ... of the whole batch. */
  function Shifted(env: Collaborators, first: nat): Collaborators
  {
    env.(sendMail := (job: nat, mail: Mail) => env.sendMail(first + job, mail))
  }

  /**
   * Failure isolation: the batch over `a + b` is the batch over `a` beside the
   * batch over `b` whose jobs keep their positions in the whole batch, so no
   * row's outcome depends on the rows around it.
   */
  lemma SendAllAppend(a: seq<Row>, b: seq<Row>, isDryRun: bool, subject: string, env: Collaborators)
    ensures SendAll(a + b, isDryRun, subject, env) ==
      Batch(SendAll(a, isDryRun, subject, env).results + SendAll(b, isDryRun, subject, Shifted(env, |a|)).results,
            SendAll(a, isDryRun, subject, env).sends + SendAll(b, isDryRun, subject, Shifted(env, |a|)).sends)
  {
    var whole, left, right := SendAll(a + b, isDryRun, subject, env), SendAll(a, isDryRun, subject, env),
      SendAll(b, isDryRun, subject, Shifted(env, |a|));
    forall i | 0 <= i < |a + b|
      ensures whole.results[i] == (left.results + right.results)[i]
      ensures whole.sends[i] == (left.sends + right.sends)[i]
    {
      var row := (a + b)[i];
      var step := SendEmail(row, i, isDryRun, subject, env);
      assert whole.results[i] == step.result && whole.sends[i] == step.calls;
      if i < |a| {
        assert row == a[i];
        assert left.results[i] == step.result && left.sends[i] == step.calls;
      } else {
        var j := i - |a|;
        assert row == b[j];
        ShiftedJob(row, j, |a|, isDryRun, subject, env);
        assert right.results[j] == step.result && right.sends[j] == step.calls;
      }
    }
    assert whole.results == left.results + right.results;
    assert whole.sends == left.sends + right.sends;
  }

  /** A job numbered `job` under `Shifted(env, first)` is job `first + job` of the whole batch. */
  lemma ShiftedJob(row: Row, job: nat, first: nat, isDryRun: bool, subject: string, env: Collaborators)
    ensures SendEmail(row, job, isDryRun, subject, Shifted(env, first)) == SendEmail(row, first + job, isDryRun, subject, env)
  {
  }

  /** The failure filter: the non-None results, in order. */
  function Failures(results: seq<Option<FailureRecord>>): (f: seq<FailureRecord>)
    ensures |f| <= |results|
    ensures forall x :: x in f <==> Some(x) in results
    ensures f == [] <==> forall i :: 0 <= i < |results| ==> results[i].None?
  {
    if results == [] then []
    else
      var prev := Failures(results[..|results| - 1]);
      assert results == results[..|results| - 1] + [results[|results| - 1]];
      match results[|results| - 1]
      case None => prev
      case Some(x) => prev + [x]
  }

  /**
   * The failure filter preserves order: filtering two runs of results is
   * filtering each and concatenating.
   */
  lemma {:induction false} FailuresAppend(a: seq<Option<FailureRecord>>, b: seq<Option<FailureRecord>>)
    ensures Failures(a + b) == Failures(a) + Failures(b)
  {
    if b == [] {
      assert a + b == a;
    } else {
      var b' := b[..|b| - 1];
      FailuresAppend(a, b');
      var ab := a + b;
      assert ab[..|ab| - 1] == a + b';
      assert ab[|ab| - 1] == b[|b| - 1];
      var last := match b[|b| - 1] case None => [] case Some(x) => [x];
      assert Failures(ab) == Failures(a + b') + last;
      assert Failures(b) == Failures(b') + last;
    }
  }

  /**
   * A batch where only the row at position k has a failing send yields
   * exactly one failure, that row's record.
   */
  lemma OnlyFailingRow(rows: seq<Row>, k: nat, isDryRun: bool, subject: string, env: Collaborators)
    requires k < |rows|
    requires SendEmail(rows[k], k, isDryRun, subject, env).result.Some?
    requires forall i {:trigger SendEmail(rows[i], i, isDryRun, subject, env)} ::
      0 <= i < |rows| && i != k ==> SendEmail(rows[i], i, isDryRun, subject, env).result.None?
    ensures Failures(SendAll(rows, isDryRun, subject, env).results) == [SendEmail(rows[k], k, isDryRun, subject, env).result.value]
  {
    var results := SendAll(rows, isDryRun, subject, env).results;
    var before, after := results[..k], results[k + 1..];
    forall i | 0 <= i < |before| ensures before[i].None? {
      assert before[i] == results[i] == SendEmail(rows[i], i, isDryRun, subject, env).result;
    }
    forall i | 0 <= i < |after| ensures after[i].None? {
      assert after[i] == results[k + 1 + i] == SendEmail(rows[k + 1 + i], k + 1 + i, isDryRun, subject, env).result;
    }
    assert results[k] == SendEmail(rows[k], k, isDryRun, subject, env).result;
    assert Failures([results[k]]) == [results[k].value] by {
      assert [results[k]][..0] == [];
    }
    assert results == (before + [results[k]]) + after;
    FailuresAppend(before + [results[k]], after);
    FailuresAppend(before, [results[k]]);
  }

  // ---------------------------------------------------------------------------
  // Failure export
  // ---------------------------------------------------------------------------

  /** One data row of the export, in the column order of FailureColumns. */
  function FailureFields(f: FailureRecord): seq<string>
  {
    [f.mail, f.row, f.error, f.htmlContent]
  }

  /**
   * The export loop: the header taken from the first failure's keys, then
   * one data row per failure, in order.
   */
  method WriteFailureTable(failures: seq<FailureRecord>) returns (table: seq<seq<string>>)
    requires |failures| > 0
    ensures |table| == |failures| + 1
    ensures table[0] == FailureColumns
    ensures forall i :: 0 <= i < |failures| ==> table[i + 1] == FailureFields(failures[i])
  {
    table := [FailureColumns];
    for i := 0 to |failures|
      invariant |table| == i + 1
      invariant table[0] == FailureColumns
      invariant forall j :: 0 <= j < i ==> table[j + 1] == FailureFields(failures[j])
    {
      table := table + [FailureFields(failures[i])];
    }
  }

  // ---------------------------------------------------------------------------
  // The whole run
  // ---------------------------------------------------------------------------

  /**
   * The script from its subject check to the failure export. A missing or
   * empty subject or credential, or a row without an address while the
   * address pattern is active, aborts before any row is sent; otherwise the
   * run completes: every loaded row is submitted once, the failures are the
   * non-None results, and a report is written exactly when there is at least
   * one failure, with a header and one row per failure.
   */
  method Run(subject: Option<string>, tenantId: Option<string>, clientId: Option<string>,
             clientSecret: Option<string>, pattern: Option<string>, csvRows: seq<Row>,
             isDryRun: bool, env: Collaborators)
    returns (r: RunOutcome)
    ensures !Provided(subject) ==> r == Aborted(NoSubject)
    ensures Provided(subject) && !Provided(tenantId) ==> r == Aborted(MissingCredential(TenantIdKey))
    ensures Provided(subject) && Provided(tenantId) && !Provided(clientId) ==>
      r == Aborted(MissingCredential(ClientIdKey))
    ensures Provided(subject) && Provided(tenantId) && Provided(clientId) && !Provided(clientSecret) ==>
      r == Aborted(MissingCredential(ClientSecretKey))
    ensures r.Aborted? && r.reason == MissingAddress <==>
      Provided(subject) && Provided(tenantId) && Provided(clientId) && Provided(clientSecret) &&
      FilterActive(pattern) && !AllAddressed(csvRows)
    ensures r.Completed? <==>
      Provided(subject) && Provided(tenantId) && Provided(clientId) && Provided(clientSecret) &&
      !(FilterActive(pattern) && !AllAddressed(csvRows))
    ensures r.Completed? ==>
      && r.loaded == Kept(csvRows, pattern, env.matches)
      && r.batch == SendAll(r.loaded, isDryRun, subject.value, env)
      && r.failures == Failures(r.batch.results)
      && (r.report.Some? <==> r.failures != [])
      && (r.report.Some? ==>
            && |r.report.value| == |r.failures| + 1
            && r.report.value[0] == FailureColumns
            && (forall i :: 0 <= i < |r.failures| ==> r.report.value[i + 1] == FailureFields(r.failures[i])))
    ensures r.Completed? && isDryRun ==>
      && (forall i :: 0 <= i < |r.batch.sends| ==> r.batch.sends[i] == [])
      && r.failures == []
      && r.report.None?
  {
    if subject.None? || subject.value == "" {
      return Aborted(NoSubject);
    }
    var creds := [(TenantIdKey, tenantId), (ClientIdKey, clientId), (ClientSecretKey, clientSecret)];
    var missing := FirstMissingCredential(creds);
    if missing.Some? {
      ghost var i :| 0 <= i < |creds| && creds[i].0 == missing.value && !Provided(creds[i].1) &&
        forall j :: 0 <= j < i ==> Provided(creds[j].1);
      assert creds[0].1 == tenantId && creds[1].1 == clientId && creds[2].1 == clientSecret;
      assert !Provided(tenantId) ==> i == 0;
      assert Provided(tenantId) && !Provided(clientId) ==> i == 1;
      assert Provided(tenantId) && Provided(clientId) ==> i == 2;
      return Aborted(MissingCredential(missing.value));
    }
    assert Provided(tenantId) && Provided(clientId) && Provided(clientSecret) by {
      assert creds[0].1 == tenantId && creds[1].1 == clientId && creds[2].1 == clientSecret;
    }
    var loaded := LoadRows(csvRows, pattern, env.matches);
    if loaded.None? {
      return Aborted(MissingAddress);
    }
    var batch := SendAll(loaded.value, isDryRun, subject.value, env);
    var failures := Failures(batch.results);
    var report := None;
    if |failures| > 0 {
      var table := WriteFailureTable(failures);
      report := Some(table);
    }
    return Completed(loaded.value, batch, failures, report);
  }
}
