# twitchdown, modelled in Dafny

twitchdown downloads a Twitch video-on-demand as one `.ts` file. It takes a
video id or a channel video URL and picks the variant playlist of the
requested quality. It then fetches the parts of that playlist one after the
other and appends each body to the output file. With `-c`, the tool resumes
an interrupted download. It measures the existing file, adds up the part
sizes carried by the part URLs (`?start_offset=N&end_offset=M`) until the
running total would pass the file length, and fetches the part it stopped
in again. It drops the bytes the file already holds from the front of that
part and goes on with the next part.

The model covers the logic of `twitchdown.go` around the network calls.

| file | module | what it models |
|---|---|---|
| `types.dfy` | `Types` | bytes, URLs, `Option`, a fetch result (body or transport error), the fatal failures |
| `decimal.dfy` | `Decimal` | digit runs, `strconv.Atoi` and the `%d` verb |
| `part_url.dfy` | `PartUrl` | the `PartUrl` pattern as a parser; a part's offsets and size |
| `video_id.dfy` | `VideoId` | the `TwitchUrl` pattern as a parser; `parseVideoId` |
| `quality.dfy` | `Quality` | `strings.Split` and the quality-selection loop of `getPlaylist` |
| `io.dfy` | `Io` | the output file (a class with `present` and `data`) and the HTTP client (a class answering each GET with a fixed function of the URL and logging every request) |
| `stream.dfy` | `Stream` | `downloadStream`: a loop proved against a recursive specification |
| `resume.dfy` | `Resume` | `continueDownload`: the accumulation loop (`FindResumePart`) proved against the recursive `Locate`, the refetch, and the proof that resuming never loses or repeats a byte |
| `session.dfy` | `Session` | `main`: argument check, output file name, the choice between resuming and starting over, then the download |

Where `main`, `parseVideoId`, `getPlaylist` and `continueDownload` end the
process with `os.Exit`, and where a `must` fails because an HTTP request
fails, the model returns a tagged result instead:

- `Failure.UnparseablePartUrl`
- `Failure.TransportFailed`
- `Resume.NothingNew`, which exits with status 0
- `Selection.QualityNotFound`
- `Launch.WrongArgumentCount`
- `Launch.UnrecognizedUrl`

The other `must` calls on these paths have no tagged result: a failing
`os.Create`, `OpenFile`, `Stat` or write, and `strconv.Atoi` overflowing on
a part offset. "## Left out" lists each of them.

Go runtime panics on the modelled paths become error results too:

- `bs[toSkip:]` past the end of the body becomes `Failure.SkipPastBody`.
- `playlist[i]` out of range becomes `Failure.IndexOutOfRange`.
- `v[7]` on a short variant path becomes `Selection.ShortVariantPath`.

`downloadStream` fetches the parts one after the other
(`twitchdown.go:126-133`), and part URLs have one shape
(`twitchdown.go:22`).

## Model

| member | source | states |
|---|---|---|
| Decimal.NatDigits | twitchdown.go:211 | the decimal text of `n` is a non-empty digit run whose value is `n`, with no leading zero unless `n` is 0 |
| Decimal.FormatInt | twitchdown.go:211 | what `%d` prints: a `-` exactly for a negative number, then a non-empty digit run whose value is the magnitude |
| Decimal.Atoi | twitchdown.go:96-99 | a text is accepted exactly when it is a non-empty digit run, or a `+` or `-` followed by a non-empty digit run; a negative result comes only from a leading `-` |
| Decimal.AtoiSigned | twitchdown.go:96 | a `+` in front of a digit run gives its value, a `-` its negated value |
| Decimal.AtoiFormatInt | twitchdown.go:211 | `strconv.Atoi` reads back what `%d` prints, for every integer |
| Decimal.AtoiDigits | twitchdown.go:104 | a non-empty digit capture is accepted with its digit value |
| Decimal.AtoiRejectsLetterStart | twitchdown.go:96-97 | text starting with a letter (such as a URL) is not a number |
| Decimal.TrailingDigits | twitchdown.go:22 | the length of the maximal digit run at the end of the text, the run `(\d+)$` captures |
| Decimal.LeadingDigits | twitchdown.go:21 | the length of the maximal digit run at the start of the text, the run the greedy `(\d+)` captures |
| PartUrl.MatchPartUrl | twitchdown.go:22 | a match yields two non-empty digit runs `a`, `b` such that the URL ends in `?start_offset=a&end_offset=b` |
| PartUrl.MatchPartUrlComplete | twitchdown.go:22 | every URL ending in `?start_offset=a&end_offset=b` with digit runs `a`, `b` is matched with exactly those captures |
| PartUrl.PartOffsetsOfQuery | twitchdown.go:152-161 | a URL built for bytes `start..end` reads back as exactly those offsets |
| PartUrl.PartSizeOfQuery | twitchdown.go:163 | a URL built for bytes `start..end` has size `end - start + 1` |
| PartUrl.PartOffsets | twitchdown.go:152-161 | the two offsets of a part URL, the values of its two captures; `PartOffsetsOfQuery` shows that a URL built for bytes `start..end` reads back as exactly those offsets |
| PartUrl.PartSize | twitchdown.go:152-163 | the size `end - start + 1` of a part whose URL parses, unchecked, so possibly zero or negative; a URL that does not end in a digit has no size, so resuming over it fails |
| VideoId.LeadingNonSlash | twitchdown.go:21 | the length of the maximal slash-free prefix, the run `[^/]+` captures |
| VideoId.MatchHost | twitchdown.go:21 | a match splits the argument into `http://` or `https://`, an optional `www.`, `twitch.tv/` and the rest |
| VideoId.MatchVideoPath | twitchdown.go:21 | a match splits the text into a non-empty slash-free channel, `/v/`, a non-empty digit run and a rest that does not start with a digit |
| VideoId.MatchTwitchUrl | twitchdown.go:21 | a match is well formed and the argument is its head followed by a rest that does not start with a digit |
| VideoId.MatchHostComplete | twitchdown.go:21 | every scheme, `www.` choice and rest is matched with exactly those parts |
| VideoId.MatchVideoPathComplete | twitchdown.go:21 | every channel, digit run and non-digit-led rest is matched with exactly those parts |
| VideoId.MatchTwitchUrlComplete | twitchdown.go:21 | every well-formed video URL is matched with its own channel and digits, whatever follows them |
| VideoId.ParseVideoId | twitchdown.go:95-113 | the argument as a number when `strconv.Atoi` accepts it, otherwise the value of the digits the URL pattern captures, otherwise "Unrecognized url"; `ParseVideoIdCases` states all three cases |
| VideoId.ParseVideoIdCases | twitchdown.go:95-113 | any text `strconv.Atoi` accepts (`+5`, `007`, `-0` included) is the id itself; otherwise an id is found exactly when the argument has the shape of a video URL, and it is then the value of that URL's `/v/` digits; every other argument is refused with "Unrecognized url" |
| VideoId.ParseVideoIdFound | twitchdown.go:101-107 | an id found in an argument that is not a number comes from a video URL whose `/v/` digits have that value |
| VideoId.ParseVideoIdNumber | twitchdown.go:95-99 | an argument that is a printed integer is taken as that id |
| VideoId.ParseVideoIdUrl | twitchdown.go:101-107 | a video URL yields the value of the digits after `/v/` |
| VideoId.ParseVideoIdSign | twitchdown.go:95-108 | a negative id comes only from an argument that is itself a negative number |
| Quality.Split | twitchdown.go:78 | `strings.Split` gives at least one piece and no piece holds the separator |
| Quality.JoinSplit | twitchdown.go:78 | joining the pieces with the separator restores the path |
| Quality.SplitJoin | twitchdown.go:78 | splitting joined separator-free pieces gives back those pieces |
| Quality.VariantQuality | twitchdown.go:78-79 | the quality name of a variant is component 7 of its path; none when the path has fewer than eight components |
| Quality.SelectVariant | twitchdown.go:77-90 | on success, `qualities` lists every variant's component 7 in order and the chosen URL is the last variant of the requested quality; otherwise the quality is absent from the list, or the first short variant path is reported |
| Io.OutputFile.Create | twitchdown.go:115-119 | the file exists and is empty |
| Io.OutputFile.Write | twitchdown.go:177 | the bytes are appended at the end of the file |
| Io.Network.Get | twitchdown.go:128 | the answer is the server's response for that URL, and the request is logged after all earlier ones |
| Stream.EndIndex | twitchdown.go:122-125 | the last index the loop visits: the last part for an end position of -1, otherwise the end position |
| Stream.StreamFrom | twitchdown.go:126-133 | the loop from index `i` to `end`: what it requests, writes, and the failure that stops it; `StreamAllFetched`, `StreamStopsAtFailure` and `StreamPastEnd` give its result in each case |
| Stream.BodiesSplit | twitchdown.go:126-133 | the bodies of a range are the bodies of its two halves, concatenated |
| Stream.StreamAllFetched | twitchdown.go:121-133 | when every part is served, parts `start..end` are each requested once in increasing order and their bodies written in that order |
| Stream.StreamStopsAtFailure | twitchdown.go:128-129 | a transport error on part `k` stops the loop with exactly the bodies of parts `start..k-1` written, so no part is written in part |
| Stream.StreamPastEnd | twitchdown.go:126-128 | an end position past the playlist writes every part from `start` on and then fails at the first missing index |
| Stream.DownloadStream | twitchdown.go:121-135 | the file ends as its old bytes followed by the bodies the loop writes; the request log grows by the URLs it requests; the failure is the one that ended the loop |
| Resume.PartSizesAt | twitchdown.go:152-163 | the size the resume loop reads for part `j` is that part URL's size |
| Resume.Locate | twitchdown.go:149-183 | where the accumulation loop stops for a file length and the part sizes; `LocateSpec` and its converses characterise each stopping point |
| Resume.LocatePartial | twitchdown.go:163-166 | stopping in part `i` means sizes `0..i` are known, every running total before `i` fits in the file, the total through `i` passes it, and `toSkip = dldSz - acc` with `0 <= toSkip < partSz` |
| Resume.LocateComplete | twitchdown.go:185-187 | running past the playlist means every size is known and every running total fits in the file |
| Resume.LocateUnparseable | twitchdown.go:152-156 | stopping at an unparseable part means it is the first without a size and every earlier running total fits |
| Resume.LocateSpec | twitchdown.go:149-182 | the three kinds of stopping point, as the running totals describe them |
| Resume.LocateFirstOverflow | twitchdown.go:165-166 | conversely, the first part whose running total passes the file length is where the loop stops, skipping the excess over the earlier parts |
| Resume.LocateFirstUnparseable | twitchdown.go:152-156 | conversely, a part without a size before any running total passes the file length stops the loop |
| Resume.LocateAllFit | twitchdown.go:185-187 | conversely, when all sizes are known and fit, there is nothing new to continue |
| Resume.LocateExample | twitchdown.go:149-182 | three 100-byte parts and a 150-byte file resume in part 1 skipping 50 bytes; a 300-byte file has nothing new |
| Resume.FindResumePart | twitchdown.go:149-182 | the accumulation loop returns the stopping point `Locate` describes |
| Resume.Refetch | twitchdown.go:165-187 | only a loop that ran past the whole playlist finds nothing new; a request is made exactly when the loop stopped inside a part, and then for that part alone; bytes are appended only when the download continues from the next part |
| Resume.Resolve | twitchdown.go:148-187 | `continueDownload` on an existing file: the loop's stopping point followed by the refetch; `ResolveContinue`, `ResolveNothingNew` and `ResolveUnparseable` characterise each outcome |
| Resume.ResolveContinue | twitchdown.go:171-180 | continuing from `p` means part `p - 1` is the first to overflow, it alone is refetched, the appended bytes are its body without the first `dldSz - acc` bytes, and with a body as long as its URL says the file becomes as long as parts `0..p-1` together |
| Resume.ResolveNothingNew | twitchdown.go:185-187 | nothing new to continue means every running total fits and nothing is requested or appended |
| Resume.ResolveUnparseable | twitchdown.go:152-156 | a part without a size at or before the resume point makes resuming fail before anything is requested or written |
| Resume.SizeSumBodies | twitchdown.go:163 | when bodies are as long as their offsets say, the running total of sizes is the length of the bodies so far |
| Resume.ResumeWholeStream | twitchdown.go:185-187 | a file holding the whole stream has nothing new to continue |
| Resume.ResumeStopsInside | twitchdown.go:165 | a file holding a proper prefix of the stream stops the loop inside a part |
| Resume.ResumePrefix | twitchdown.go:165-181 | a file holding a proper prefix of the stream is completed exactly to the end of the part the loop stops in, requesting only that part |
| Resume.ResumeRestoresStream | twitchdown.go:137-188 | resuming a prefix of the stream never loses or repeats a byte: nothing new when complete, otherwise the file becomes exactly parts `0..p-1` |
| Resume.ContinueDownload | twitchdown.go:137-188 | a missing file is created empty with position 0; an existing file gains exactly the bytes `Resolve` appends and the client the requests it makes, and the result is its outcome |
| Session.OutputName | twitchdown.go:207-212 | the file name is longer than `.ts` and ends in `.ts` |
| Session.OutputNameStem | twitchdown.go:207-212 | the stem is the given name, or, without one, text that `strconv.Atoi` reads back as the video id |
| Session.OutputNameDistinct | twitchdown.go:210-211 | without a name, different videos go to different files |
| Session.Prepare | twitchdown.go:199-212 | the argument check and the file name of `main`; `PrepareFileName`, `PrepareNumber` and `PrepareVideoUrl` state what a started run downloads and where it saves |
| Session.PrepareFileName | twitchdown.go:205-212 | a run that starts saves to a `.ts` file whose stem is the `-n` name or, without one, reads back with `strconv.Atoi` as the video id the run downloads |
| Session.PrepareNumber | twitchdown.go:95-99 | a printed number given as the only argument without `-n` starts a run for that id, saved to `<number>.ts` |
| Session.PrepareVideoUrl | twitchdown.go:205-211 | a video URL without `-n` saves to the digits after `/v/` followed by `.ts` |
| Session.Download | twitchdown.go:226-233 | resume with `-c` and `-p 0` on an existing file, otherwise start over at `-p` on an empty file, then download up to the end index; the lemmas below state the outcome of each path |
| Session.Run | twitchdown.go:226-233 | the exit, the file's final bytes and the requests made are those `Download` describes: resume with `-c` and `-p 0`, otherwise start over on a file created empty |
| Session.FreshDownload | twitchdown.go:229-233 | a fresh run over served parts writes exactly the bodies of parts `start..end` in order and requests each once |
| Session.RangesAreConsistent | twitchdown.go:163 | part URLs built for byte ranges, with bodies as long as their ranges, make the sizes the resume loop reads agree with the bodies |
| Session.ResumeCompletesStream | twitchdown.go:227-233 | resuming with `-c` a prefix of the stream leaves the whole stream in the file and requests only a suffix of the playlist |
| Session.ResumedContinues | twitchdown.go:228-233 | continuing from `p` with every remaining part served finishes the run, appending and requesting parts `p..` in order |
| Session.ResumedFinishes | twitchdown.go:228-233 | when the file plus the appended bytes are exactly parts `0..p-1`, the run finishes with the whole stream, having requested parts `p-1..` |
| Session.CutOff | twitchdown.go:128-129 | a fresh download whose part `k` fails writes exactly parts `0..k-1`, requests parts `0..k`, and fails on part `k` |
| Session.BodiesAgree | twitchdown.go:126-133 | two servers that agree on the parts of a range give the same bodies for it |
| Session.InterruptedThenResumed | twitchdown.go:226-233 | a download cut off by a transport error, run again with `-c` against a server that answers every part, ends with the whole stream in the file |

## Left out

- HTTP requests are not modelled as network I/O. The server is a fixed function from URL to body or transport error, so repeated fetches of one URL give the same answer.
- Response status codes are not modelled. `downloadStream` and `continueDownload` do not check them, and the model writes the body whatever it is.
- `getAccessToken` (`twitchdown.go:36-49`) is left out. Its token request and JSON decoding are network I/O.
- `dldPlaylist` (`twitchdown.go:51-70`) is left out. It wraps an m3u parser and `net/url` resolution that are not part of this model. Playlists come in as sequences of URLs.
- Flag parsing and the defaults of the flags are not modelled. Flag values are parameters: `-c`, `-p` and `-e` of `Session.Run`, `-n` of `Session.Prepare`, and `-q` of `Quality.SelectVariant`.
- Progress printing and `DEBUG` output are not modelled.
- Decimal.Atoi: does not model the 64-bit range check of `strconv.Atoi`. Integers are unbounded, so an over-long digit run is accepted here where Go reports an error.
- PartUrl.PartOffsets: does not model `strconv.Atoi` overflowing on an over-long offset (`twitchdown.go:158-161`), where Go ends the process. The model reads every digit run as its unbounded value.
- Resume.FindResumePart: does not model the `int64` arithmetic of `acc` and `partSz`. They are unbounded integers.
- Io.OutputFile.Write: a failing write is not modelled. Neither are a failing `os.Create`, `Stat`, or `OpenFile` error other than "does not exist".
- Stream.DownloadStream: models `io.Copy` as writing a whole body or, on a transport error, nothing. A copy that fails halfway and leaves part of a body in the file is not modelled.
- The `Close` calls are not modelled. The `defer` order of `main` and `continueDownload` has no effect on the bytes written.
- Concurrency and a second part URL scheme are not modelled, because `twitchdown.go` has neither.
