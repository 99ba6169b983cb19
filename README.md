# Response workers of ganda, modelled in Dafny

ganda fetches many URLs and hands every HTTP response it gets to a pool of
response workers. Each worker takes responses off a shared channel, reads the
whole body, and either prints it to the output stream or saves it to a file.
A body that cannot be read gives a warning, and the worker moves on. A file
that cannot be written aborts the whole run.

This project models the deterministic parts of `responses/responses.go`:

- `filename.dfy`, module `Filename`: how a saved file is named. The regular
  expression `[^A-Za-z0-9]+` is replaced by `-` in the request URL. The
  replacement is modelled run by run (`Sanitize`). It is also modelled one
  character at a time (`Scan`), and the two are proved equal on every input.
- `shard.dfy`, module `Shard`: how the file's directory and full path are
  derived (`directoryForFile` and the path built in `saveBodyToFile`). This
  includes the `%x` hex rendering of the digest slice, with its inverse.
- `responses.dfy`, module `Responses`: one worker's loop (`ResponseWorker`) as
  a sequential consumer of a queue of responses, with the print action and
  the save action. The worker's effects are recorded as a trace of events:
  warning, response log line, output bytes, file written, abort. The method
  is proved equal to the specification function `Drain`. The lemmas about
  `Drain` state the ordering, stopping and pass-through properties.

Depths 1 and 2 both take one digest byte, which is 2 hex digits. Only
depths above 2 take two bytes, which is 4 hex digits (`Shard.DirectoryLayout`,
`Shard.ShardWidthTable`).

Inputs the model takes as parameters, because it cannot compute them:

- the MD5 function: a parameter `md5: string -> Digest`, where a `Digest`
  is exactly 16 bytes;
- the outcome of reading each body: `Response.read`;
- the outcome of writing each file: `Response.write`.

## Model

| member | source | states |
|---|---|---|
| `Filename.Sanitize` | responses/responses.go:34-37 | the file name is never longer than the URL. It is empty only for an empty URL. It uses only ASCII letters, digits and `-`, and never has two `-` side by side. It starts with the URL's first character when that is a letter or digit, otherwise with `-` |
| `Filename.DropSpecialRun` | responses/responses.go:34 | one match of `[^A-Za-z0-9]+` takes exactly the maximal leading run of other characters. What remains is a suffix of the input that is empty or starts with a letter or digit |
| `Filename.SanitizeIsScan` | responses/responses.go:34-37 | the run-at-a-time replacement equals a one-character-at-a-time scanner on every input. The scanner emits one `-` when a run of other characters opens and keeps letters and digits |
| `Filename.SanitizeKeepsAlnum` | responses/responses.go:34-37 | deleting the `-` characters from the file name gives exactly the URL's letters and digits, in order |
| `Filename.OneDashPerRun` | responses/responses.go:34-37 | the number of `-` characters in the file name equals the number of maximal runs of non-alphanumeric characters in the URL |
| `Filename.SanitizeFixpoint` | responses/responses.go:34-37 | sanitising leaves a string unchanged exactly when it is letters, digits and single `-` characters (both directions) |
| `Filename.SanitizeIdempotent` | responses/responses.go:34-37 | sanitising an already sanitised name changes nothing |
| `Shard.Hex` | responses/responses.go:91 | `%x` of a byte slice is two lowercase hex digits per byte |
| `Shard.UnhexHex` | responses/responses.go:91 | the hex rendering can be read back into the same bytes, so distinct digest slices give distinct shard names |
| `Shard.HexUnhex` | responses/responses.go:91 | every even-length lowercase hex string is the rendering of the bytes read back from it |
| `Shard.DirectoryForFile` | responses/responses.go:78-95 | the directory is longer than the base directory. It starts with the base directory followed by `/`, and it ends with `/` |
| `Shard.DirectoryLayout` | responses/responses.go:80-91 | depth 0 or less gives exactly `base/`. A positive depth gives `base/<shard>/`, where the shard is 2 lowercase hex digits for depth 1 or 2 and 4 for any greater depth. The shard reads back to the first 1 or 2 bytes of the file name's digest |
| `Shard.ShardWidthCapped` | responses/responses.go:85-88 | whatever the depth, the directory is at most 6 characters longer than the base directory: the shard never exceeds 4 hex digits |
| `Shard.ShardsNest` | responses/responses.go:83-91 | the depth-1 shard of a file name is the first two hex digits of its depth-3 shard |
| `Shard.ShardIsDigestHexPrefix` | responses/responses.go:90-91 | for a positive depth, the shard name is the first 2 or 4 characters of the full 32-digit lowercase hex of the file name's MD5 digest |
| `Shard.ShardWidthTable` | responses/responses.go:80-91 | directory lengths for depths -1, 0, 1, 2, 3 and 10: no shard, no shard, 2, 2, 4 and 4 hex digits |
| `Shard.FilePath` | responses/responses.go:66-68 | the full path starts with `base/` and ends with `/` followed by the file name |
| `Shard.FilePathSplits` | responses/responses.go:67-68 | the full path is the directory followed by the file name. The split point depends only on the base directory's length and the depth, so the file name can be read back from the path |
| `Shard.FilePathDependsOnShardBytes` | responses/responses.go:83-91 | two depths that take the same number of digest bytes give the same path |
| `Responses.PrintBody` | responses/responses.go:44-49 | the print action never aborts. Its first event is the response log line with the status and the URL. It has a second event (the output) if and only if the body is non-empty |
| `Responses.PrintBodyContents` | responses/responses.go:45-48 | printing gives exactly one response log line. The output is the body verbatim. No warning and no file |
| `Responses.SavePathLayout` | responses/responses.go:37-38 | a body is saved under the file's shard directory followed by the sanitised URL. The part after the directory is a clean name |
| `Responses.SaveBody` | responses/responses.go:36-73 | the save action aborts if and only if the write fails, and the abort is then its only event: no file and no log line. A successful save has exactly two events, the file write first and the response log line after it |
| `Responses.SaveBodyContents` | responses/responses.go:37-39 | a successful save writes the body once, to the path derived from the sanitised URL. It logs the status with `URL -> path` once. Saving never warns or prints |
| `Responses.BodyAction` | responses/responses.go:21-25 | the action a worker applies aborts if and only if the run saves files and the write fails. The abort is then its only event |
| `Responses.Handle` | responses/responses.go:53-61 | one loop iteration aborts if and only if the body was read, saving is on, and the write failed; the abort is then its only event |
| `Responses.DrainStep` | responses/responses.go:53-61 | draining from a position handles the response there first. A failed write yields the abort alone; otherwise that response's events come before those of the rest |
| `Responses.ProcessResponse` | responses/responses.go:54-61 | one loop iteration's events are those of `Handle`. It reports an abort exactly when the file could not be written |
| `Responses.HandleContents` | responses/responses.go:54-61 | a failed read gives exactly one warning carrying the URL and status, and no log, output or file. A successful read gives exactly one action with its body |
| `Responses.ResponseWorker` | responses/responses.go:52-64 | the loop's trace equals `Drain` of the queue: responses are processed in queue order until a write fails, and none after it |
| `Responses.DrainAppend` | responses/responses.go:53-62 | if the responses so far have not aborted the run, the later responses are still handled. The trace of the whole queue is the trace of the first part followed by the trace of the rest |
| `Responses.DrainStopsAtAbort` | responses/responses.go:69-73 | after an abort no later response is handled |
| `Responses.AbortIffWriteFails` | responses/responses.go:69-73 | the run aborts if and only if some response is read in save mode and its write fails (both directions) |
| `Responses.AbortAtFirstFailedWrite` | responses/responses.go:53-73 | the abort comes at the first failing write. The trace is that of the responses before it, with no abort among them, followed by the abort alone |
| `Responses.DrainContents` | responses/responses.go:53-61 | in a run that does not abort, each kind of event matches the queue, in queue order. There is one warning per failed read. Log lines, output bytes and written files are exactly those the successful reads call for |
| `Responses.PrintPassesBodiesThrough` | responses/responses.go:44-49 | print mode never aborts and writes no file. The output stream is the readable bodies back to back, with nothing added |

## Left out

- `StartResponseWorkers` (responses/responses.go:15-31): spawning the worker goroutines and counting them down on a `sync.WaitGroup` is concurrency. The model is one worker. The worker count is only the bound of the spawning loop. How items are split between workers, and how their trace events interleave, is not modelled.
- MD5 (responses/responses.go:90) is a foreign cryptographic call. It is a parameter of type `string -> Digest`. The `[]byte(filename)` conversion is folded into it.
- `os.MkdirAll` (responses/responses.go:94) is filesystem I/O. Its error is ignored by the code, so it has no effect on the trace.
- `ioutil.WriteFile` and the `0644` permission bits (responses/responses.go:69) are filesystem I/O. Only the write outcome is modelled, as an input per response. A failed write is modelled as the abort alone, without a file event.
- `ioutil.ReadAll` and `Body.Close` (responses/responses.go:54-55) are stream I/O. Each queued response carries its read outcome. The stream is always closed, and that has no effect on the trace.
- The error value in the warning and in the panic is not modelled. Log formatting strings, `Out.Printf` and `URL.String()` are library wrappers; the URL is the string `URL.String()` returns, and the sinks are trace events.
- Go's regular expression works on UTF-8 runes over bytes. The model works on `char`. Every non-ASCII rune and every invalid byte is outside `[A-Za-z0-9]` either way, and runs collapse, so the file names agree.
- `Responses.SaveBody`: a write that fails aborts the whole process, which also discards other workers' in-flight work. The model only ends this worker's trace with `Abort`.
