# Batch e-mail dispatch and template path splitting, in Dafny

This project models the core of a script that mails a rendered HTML template
to every recipient listed in a CSV file through Microsoft Graph, and proves
properties of that model.

- `send_emails.dfy`, module `SendEmails`: the script `send_emails.py` from its
  subject check to the failure export.
  - The pre-flight checks come first. The subject must be given and non-empty.
    Then the three credentials are checked in order (tenant id, client id,
    client secret); the first one that is missing or empty aborts the run.
  - The CSV loader loop keeps a row when no address pattern is configured, or
    when the row's `email_address` matches the pattern. Kept rows stay in
    input order.
  - `send_email` handles one row. It reads the address and renders the
    template, then in dry-run mode skips the send. Otherwise it calls the mail
    client once; if that call raises, it returns a failure record.
  - The thread pool's `map` gives one result per row, in row order. The
    failure filter keeps the non-`None` results. The failure report (a header
    and one row per failure) is written only when there is a failure.
- `template_path.dfy`, module `TemplatePath`: `split_template_path_and_filename`.
  It picks `/` as the delimiter when the path holds one and `\` otherwise. It
  splits on that delimiter and takes the last segment as the file name. The
  remaining segments are joined again and followed by one more delimiter.
  So a bare file name gets the directory `\`.

The collaborators the script calls but does not define are parameters, and
every property holds whatever they do. They are grouped in the
`Collaborators` datatype:
- the template's `render(row)`: returns a body or raises;
- the mail client's `send_mail`: returns or raises with an error text. It is
  given the position of the row's job in the batch with each call, so two rows
  with the same message may still have different outcomes;
- `json.dumps`: an abstract serialiser;
- `re.match(pattern, address)`: an abstract predicate. The real one is
  anchored at the start of the address only, not at its end.

The mail client's side effect is recorded per row, as the list of calls that
row's job made to it (`Mail` values), so "no send in dry-run mode" is a
statement about those lists. The jobs run concurrently, so no order between
the calls of different rows is recorded.

Two behaviours of the code are easy to miss:
- A missing `email_address` column is fatal only when an address pattern is
  active (send_emails.py:249-252). There, the `KeyError` reaches the loader's
  handler, which ends the run. Without a pattern the row is loaded. Then
  `send_email` raises the `KeyError` at line 296, outside its `try`; the
  logger's catch decorator swallows it and the row yields `None`: no send and
  no failure record.
- A render failure is not captured as a failure record. The render at line 301
  is outside the `try` of lines 307-325, so it also yields `None`.

## Model

| member | source | states |
|---|---|---|
| `SendEmails.FirstMissingCredential` | send_emails.py:197-205 | finds nothing iff every credential is given (not None, not empty); otherwise names a credential that is missing or empty, with all credentials before it given (the first bad one in check order) |
| `SendEmails.LoadRows` | send_emails.py:248-260 | the load fails iff a pattern is active and some row has no `email_address`; otherwise the loaded rows are `Kept(rows)`, the rows the filter keeps, in order |
| `SendEmails.Kept` | send_emails.py:248-259 | never more loaded rows than input rows |
| `SendEmails.KeptIsOrderedSelection` | send_emails.py:248-259 | the loaded rows are the input rows at strictly increasing positions, and a position is among them iff the pattern is unset or empty or the row's address matches it |
| `SendEmails.UnfilteredKeepsAll` | send_emails.py:249-259 | with the pattern unset or empty, every row is loaded, unchanged and in order |
| `SendEmails.SendEmail` | send_emails.py:274-328 | at most one mail-client call; dry-run: no send and `None`; the mail client is called exactly once, with the subject, the row's address and the rendered body, iff not dry-run and the address is present and rendering returned; a failure record is returned iff that call raised, and it holds the address, the serialised row, the error text and the rendered body |
| `SendEmails.SendAll` | send_emails.py:343 | one result and one list of mail-client calls per loaded row, in row order; both are those of send_email for row i as job i alone; each row's job calls the mail client at most once; in dry-run mode no row calls it and every result is `None` |
| `SendEmails.SendAllAppend` | send_emails.py:343 | the batch over `a + b` is the batch over `a` beside the batch over `b` with its jobs at their positions in the whole batch, for results and calls alike: no row's outcome depends on the other rows |
| `SendEmails.Failures` | send_emails.py:348-350 | no more failures than results; a record is a failure iff it occurs as a non-`None` result; there are no failures iff every result is `None` |
| `SendEmails.FailuresAppend` | send_emails.py:348 | the failure filter keeps order: failures of `a + b` are failures of `a` then failures of `b` |
| `SendEmails.OnlyFailingRow` | send_emails.py:307-348 | if only row k's send raises, the failure list is exactly row k's record |
| `SendEmails.WriteFailureTable` | send_emails.py:355-359 | the report is the header `mail,row,error,html_content` followed by one row per failure, in order, each holding that failure's four fields |
| `SendEmails.Run` | send_emails.py:171-362 | a missing or empty subject aborts first; then the first missing or empty credential aborts, naming it; then a missing address under an active pattern aborts; an aborted run loads and sends nothing. The run completes iff none of these holds. Then: the loaded rows are `Kept`, the batch is `SendAll` over them, failures are `Failures` of the results, and a report is written iff there is a failure, with one row per failure. In dry-run mode there are no sends, no failures and no report |
| `TemplatePath.Split` | src/extensions/jinja/jinja_environment_extended.py:56 | `str.split` on one character: at least one segment, no segment holds the separator, joining the segments with it gives the input back, and a string without it splits into itself |
| `TemplatePath.Delimiter` | src/extensions/jinja/jinja_environment_extended.py:49-54 | the delimiter is `/` iff the path holds a `/`, and `\` otherwise |
| `TemplatePath.SplitTemplatePathAndFilename` | src/extensions/jinja/jinja_environment_extended.py:37-65 | the file name holds no delimiter; the directory ends with the delimiter; when the path holds the delimiter, directory followed by file name is the path; with neither `/` nor `\` in the path, the directory is `\` and the file name is the whole path (so `""` gives `""`) |
| `TemplatePath.LastDelimiterSplit` | src/extensions/jinja/jinja_environment_extended.py:56-63 | the directory is the prefix through the LAST delimiter and the file name is the rest: any split of the path at a delimiter with none after it is the result |
| `TemplatePath.TrailingDelimiter` | src/extensions/jinja/jinja_environment_extended.py:56-63 | a path ending in its delimiter gives an empty file name and the whole path as directory |
| `TemplatePath.SlashPathKeepsBackslashes` | src/extensions/jinja/jinja_environment_extended.py:49-56 | once a `/` is present, the split is at the last `/` and every `\` stays inside the directory or the file name |

## Left out

- Thread pool concurrency (send_emails.py:336-343): the pool returns results in input order, which the model keeps, but the order in which the jobs of different rows call the mail client is the scheduler's; the model records each row's calls separately and no order between rows.
- A non-positive `--max-concurrent-threads` value: `ThreadPoolExecutor` then raises `ValueError` at send_emails.py:336, after loading and before any send, and the run ends. The model has no worker count and always completes once the checks and the load pass.
- Argument parsing, logger and log-file setup, the `./logs` directory, and loading the `.env` file (send_emails.py:47-168): configuration and I/O.
- The template-path and CSV-path existence checks (send_emails.py:177-185): file-system I/O. In the source they run between the subject check and the credential check.
- Construction failures of the mail client and of the template environment (send_emails.py:207-234): foreign calls that end the run before loading. Loading the template itself (jinja_environment_extended.py:30-32, 67-76) is foreign too.
- Opening and parsing the CSV file, and an invalid pattern that makes `re.match` raise: both are fatal in the source and are not represented. The model's only fatal load error is a missing address under an active pattern.
- Rows shorter than the header, whose missing cells the CSV reader fills with `None`: rows are maps from column name to text.
- The key order of a row: it only affects `json.dumps`, which is abstract here.
- The body type (HTML) and importance (High) arguments of `send_mail`, and the sender's name and address: they are constants of the mail client and not part of a call's outcome.
- The mail client is a function of the job position and the message. It cannot model a client whose outcome depends on the timing of concurrent calls.
- The timestamped file name and writing the report file (send_emails.py:351-359): the clock and file I/O. The report is modelled as its table of rows.
- Log messages, and exceptions raised by the logger itself.
