# Test-installation bootstrap and ConceptName, modelled in Dafny

This project models two parts of an electronic medical records platform.

The first is the test-installation helper `TestInstallUtil`. The installation wizard uses it to build a test system. It does three things:

- It seeds the database by running the `mysql` client on a SQL dump. It collects the client's stderr and reports whether the client exited with status 0.
- It extracts the `.omod` module files from a zip archive into the module repository. A name that holds the platform file separator is reduced to its file name, and a later entry overwrites an earlier one with the same name.
- It posts the user's credentials, Base64-encoded, to the remote resource. It then classifies the answer: 401 is an authentication failure, 500 is a server failure, and any other code yields the response stream.

The second is the domain record `ConceptName`. It has six fields, each with a setter. Its `equals` compares three of them, and its `hashCode` adds the hashes of the same three.

The I/O is replaced by inputs:

- The spawned process is its stderr lines plus its outcome: spawn failure, a failing read, interruption, or an exit status.
- The archive is its list of decoded entries.
- The module repository is a `ModuleRepository` object holding a map from file name to bytes.
- I/O failures are an `IoFault` parameter naming where the `IOException` is raised.
- The remote server is a function from the request body to its answer.
- The platform line separator and file separator are parameters.

Files:

- `wrappers.dfy`: `Option`, standing for Java's nullable references.
- `java_lang.dfy`: the JDK and Commons Lang behaviour the code relies on. This is 32-bit `int` wrap-around, `Integer.toString` with its parser, `Character.isWhitespace`, `StringUtils.isNotBlank`, `endsWith` and `indexOf`.
- `base64.dfy`: the Base64 encoding of section 4 of RFC 4648, with padding and without line breaks. It includes a strict decoder and the decode-of-encode round trip.
- `test_install_util.dfy`: module `TestInstallUtil`.
- `concept_name.dfy`: module `ConceptNames`, with the class `ConceptName`.

Two details of the extraction follow the code exactly:

- `endsWith(".omod")` is case-sensitive, so `X.OMOD` is ignored.
- A name is reduced only when it contains the platform file separator, the `fileSeparator` parameter. When it is reduced, `File.getName` splits at that separator, and on Windows also at `/`. On Windows, a zip entry name such as `dir/b.omod` uses `/` only, so it is kept whole (see Findings).

## Model

| member | source | states |
|---|---|---|
| `TestInstallUtil.MysqlCommand` | web/src/main/java/org/openmrs/web/filter/initialization/TestInstallUtil.java:65-66 | The command has exactly 8 arguments: `mysql` first and `-e` seventh. Every field of the target, the decimal port included, is read back intact from its argument, so each value is one argument whatever characters it holds. |
| `TestInstallUtil.MysqlCommandExample` | web/src/main/java/org/openmrs/web/filter/initialization/TestInstallUtil.java:65-66 | For host `h`, port 3306, database `d`, user `u`, password `p` and dump `/tmp/d.sql`, the command is the expected 8 literal strings. |
| `JavaLang.IntToString` | web/src/main/java/org/openmrs/web/filter/initialization/TestInstallUtil.java:65 | The rendering of an int in `"--port=" + port`: decimal digits with no leading zero, after a minus sign for a negative value. |
| `JavaLang.IntToStringRoundTrip` | web/src/main/java/org/openmrs/web/filter/initialization/TestInstallUtil.java:65 | The decimal rendering of an int used in `"--port=" + port` parses back to the same int, negative values included. |
| `TestInstallUtil.Transcript` | web/src/main/java/org/openmrs/web/filter/initialization/TestInstallUtil.java:73-78 | The stderr transcript: for each line in order, the line separator and then the line. It has no contract of its own; ReadErrorStream is proved to compute it, and the three lemmas below state its properties. |
| `TestInstallUtil.ReadErrorStream` | web/src/main/java/org/openmrs/web/filter/initialization/TestInstallUtil.java:73-78 | The `readLine` loop builds exactly the transcript: for each line in order, the separator and then the line. |
| `TestInstallUtil.TranscriptEmptyIff` | web/src/main/java/org/openmrs/web/filter/initialization/TestInstallUtil.java:73-78 | With a non-empty separator, the transcript is empty if and only if no line was read. |
| `TestInstallUtil.SplitTranscriptRoundTrip` | web/src/main/java/org/openmrs/web/filter/initialization/TestInstallUtil.java:74-77 | The transcript loses nothing. When no line contains the separator's first character, splitting the transcript gives back the lines in order. |
| `JavaLang.IsWhitespace` | web/src/main/java/org/openmrs/web/filter/initialization/TestInstallUtil.java:95 | `Character.isWhitespace`, on which `StringUtils.isNotBlank` rests: the Unicode space, line and paragraph separators other than the non-breaking spaces, and the ASCII controls HT, LF, VT, FF, CR, FS, GS, RS and US, as Java 9 and later (Unicode 8.0 or later) define it. Java 8 and earlier also count U+180E. It is a predicate with no contract. |
| `JavaLang.IsNotBlank` | web/src/main/java/org/openmrs/web/filter/initialization/TestInstallUtil.java:95 | `StringUtils.isNotBlank` on a non-null string: some character is not whitespace, so the empty string is blank. It is a predicate with no contract; TranscriptNotBlankIff states what it means for the transcript. |
| `TestInstallUtil.TranscriptNotBlankIff` | web/src/main/java/org/openmrs/web/filter/initialization/TestInstallUtil.java:95-96 | With a whitespace separator, the transcript is not blank (so it is logged) if and only if some stderr line is not blank. |
| `TestInstallUtil.AddTestData` | web/src/main/java/org/openmrs/web/filter/initialization/TestInstallUtil.java:61-115 | The spawned command is `MysqlCommand(target)`. The result is true if and only if the process spawned and `waitFor` returned 0; a spawn failure, an interruption and a non-zero exit all give false. The transcript is logged if and only if the process spawned, stderr was read to the end, and the transcript is not blank. |
| `TestInstallUtil.BaseName` | web/src/main/java/org/openmrs/web/filter/initialization/TestInstallUtil.java:151-152 | `File.getName` gives the longest suffix of the path without a path separator: it holds none, and it is either the whole path or starts just after one. The path separators are the platform separator, and on Windows (backslash) also `/`. |
| `TestInstallUtil.BaseNameAfterSeparator` | web/src/main/java/org/openmrs/web/filter/initialization/TestInstallUtil.java:151-152 | For any prefix, a path separator and then a name without one, `File.getName` gives exactly that name. |
| `TestInstallUtil.StoredName` | web/src/main/java/org/openmrs/web/filter/initialization/TestInstallUtil.java:147-152 | The stored name holds no platform separator and is a suffix of the entry name that is either the whole name or starts just after a path separator. A name without the platform separator is kept as it is. A name with it keeps only what follows its last path separator. |
| `TestInstallUtil.StoredNameWindowsExample` | web/src/main/java/org/openmrs/web/filter/initialization/TestInstallUtil.java:147-152 | With the Windows separator, `x\y/z.omod` is stored as `z.omod`, and `x/z.omod`, which holds no backslash, is kept whole. |
| `TestInstallUtil.StoredNameKeepsSuffix` | web/src/main/java/org/openmrs/web/filter/initialization/TestInstallUtil.java:148-152 | For a separator that does not occur in `.omod`, the stored name of a `.omod` entry still ends in `.omod`. |
| `TestInstallUtil.IsModuleEntry` | web/src/main/java/org/openmrs/web/filter/initialization/TestInstallUtil.java:141-148 | An entry is copied exactly when it is not a directory and its name ends in `.omod`, case-sensitively. It has no contract of its own; InstallAllSkipsNonModules and InstallAllContents state its effect. |
| `TestInstallUtil.Install` | web/src/main/java/org/openmrs/web/filter/initialization/TestInstallUtil.java:140-161 | The effect of one entry on the repository: a module entry writes its content under its stored name, and any other entry changes nothing. It has no contract of its own; InstallKey states it file by file. |
| `TestInstallUtil.InstallKey` | web/src/main/java/org/openmrs/web/filter/initialization/TestInstallUtil.java:140-161 | After one entry, a file exists if and only if it existed before or the entry writes it. An entry that writes it gives it the entry's content, and otherwise the old content stays. |
| `TestInstallUtil.InstallAll` | web/src/main/java/org/openmrs/web/filter/initialization/TestInstallUtil.java:139-162 | The effect of the extraction loop: the entries' effects applied in archive order. It has no contract of its own; InstallAllContents characterises it and AddZippedTestModules is proved to compute it. |
| `TestInstallUtil.InstallAllSkipsNonModules` | web/src/main/java/org/openmrs/web/filter/initialization/TestInstallUtil.java:141-161 | Directory entries, and files whose name does not end in `.omod` (case-sensitive), leave the repository unchanged. |
| `TestInstallUtil.LastWriter` | web/src/main/java/org/openmrs/web/filter/initialization/TestInstallUtil.java:139-157 | Gives the last entry that writes a given repository file, or -1 when no entry does. |
| `TestInstallUtil.InstallAllContents` | web/src/main/java/org/openmrs/web/filter/initialization/TestInstallUtil.java:139-157 | After extraction, a file exists if and only if it existed before or some module entry writes it. Its content is exactly the bytes of the last entry that writes it, so later entries overwrite earlier ones. It keeps its old content when no entry writes it. |
| `TestInstallUtil.InstallAllNewNames` | web/src/main/java/org/openmrs/web/filter/initialization/TestInstallUtil.java:148-157 | For a platform separator outside `.omod`, every file the extraction adds has a name that holds no platform separator and ends in `.omod`. On Windows the name can still hold `/`; see InstallAllWindowsKeepsSlash. |
| `TestInstallUtil.BaseNameExample` | web/src/main/java/org/openmrs/web/filter/initialization/TestInstallUtil.java:151-152 | With the separator `/`, `dir/b.omod` is reduced to `b.omod`. |
| `TestInstallUtil.ExampleEntryNames` | web/src/main/java/org/openmrs/web/filter/initialization/TestInstallUtil.java:141-161 | With the separator `/`, in the example archive, `a.omod` and `dir/b.omod` are modules, stored as `a.omod` and `b.omod`. `readme.txt` is not a module. |
| `TestInstallUtil.InstallAllExample` | web/src/main/java/org/openmrs/web/filter/initialization/TestInstallUtil.java:139-162 | With the separator `/`, the archive {`a.omod`=X, `dir/b.omod`=Y, `readme.txt`=Z} turns an empty repository into exactly {`a.omod`=X, `b.omod`=Y}. |
| `TestInstallUtil.InstallAllWindowsKeepsSlash` | web/src/main/java/org/openmrs/web/filter/initialization/TestInstallUtil.java:147-157 | With the Windows separator, the entry `dir/b.omod` fails the test for a backslash and is stored under the key `dir/b.omod`, which still holds the path separator `/`. |
| `TestInstallUtil.BaseNameKeepsSuffix` | web/src/main/java/org/openmrs/web/filter/initialization/TestInstallUtil.java:148-152 | For a separator that does not occur in `.omod`, the last component of a `.omod` name still ends in `.omod`. |
| `TestInstallUtil.InstallIntended` | web/src/main/java/org/openmrs/web/filter/initialization/TestInstallUtil.java:149-157 | The intended effect of one entry: a module entry writes its content under the part of its name after the last path separator. It has no contract of its own; InstallAllIntendedNewNames and InstallAllIntendedWindowsExample state its properties. |
| `TestInstallUtil.InstallAllIntended` | web/src/main/java/org/openmrs/web/filter/initialization/TestInstallUtil.java:139-162 | The intended extraction loop: the intended effects applied in archive order. It has no contract of its own; InstallAllIntendedNewNames states its property. |
| `TestInstallUtil.InstallAllIntendedNewNames` | web/src/main/java/org/openmrs/web/filter/initialization/TestInstallUtil.java:148-157 | With the name reduced at every path separator, as the code evidently intends, every file the extraction adds has a name free of both path separators that ends in `.omod`. |
| `TestInstallUtil.InstallAllIntendedWindowsExample` | web/src/main/java/org/openmrs/web/filter/initialization/TestInstallUtil.java:147-157 | With the intended reduction and the Windows separator, the entry `dir/b.omod` is stored as `b.omod`. |
| `TestInstallUtil.ProcessedCount` | web/src/main/java/org/openmrs/web/filter/initialization/TestInstallUtil.java:139-167 | Entries stop taking effect only where an `IOException` is raised. With no fault, every entry is processed. |
| `TestInstallUtil.AddZippedTestModules` | web/src/main/java/org/openmrs/web/filter/initialization/TestInstallUtil.java:125-185 | The repository ends up as the old repository with the entries before the fault applied in order, so writes made before a failure remain. The result is false if and only if an `IOException` was raised. The input stream is always closed. The temporary file is marked for deletion on exit exactly when it was created. The zip file is closed exactly when it was opened. |
| `Base64.Encode` | web/src/main/java/org/openmrs/web/filter/initialization/TestInstallUtil.java:231-232 | The encoding of n bytes has 4·⌈n/3⌉ characters. |
| `Base64.EncodeShape` | web/src/main/java/org/openmrs/web/filter/initialization/TestInstallUtil.java:231-232 | Every character comes from the standard alphabet, except the padding `=`. The padding is exactly the last (3 − n mod 3) mod 3 characters. |
| `Base64.DecodeEncode` | web/src/main/java/org/openmrs/web/filter/initialization/TestInstallUtil.java:231-232 | Decoding the encoding of any bytes gives those bytes back. |
| `Base64.EncodeHasNoAmpersand` | web/src/main/java/org/openmrs/web/filter/initialization/TestInstallUtil.java:231-232 | No encoding contains `&`, so the body splits at `&password=` into its two fields. An encoding can still hold `+`, which a form decoder reads as a space. |
| `Base64.EncodeAlice` | web/src/main/java/org/openmrs/web/filter/initialization/TestInstallUtil.java:231 | The bytes of `alice` encode as `YWxpY2U=`. |
| `Base64.EncodePw` | web/src/main/java/org/openmrs/web/filter/initialization/TestInstallUtil.java:232 | The bytes of `pw` encode as `cHc=`. |
| `Base64.EncodeFoobar` | web/src/main/java/org/openmrs/web/filter/initialization/TestInstallUtil.java:231-232 | `foobar` encodes as `Zm9vYmFy`, a test vector from section 10 of RFC 4648. |
| `Base64.EncodeTildes` | web/src/main/java/org/openmrs/web/filter/initialization/TestInstallUtil.java:231-232 | The bytes of `~~~` encode as `fn5+`, so an encoding can hold `+`. |
| `TestInstallUtil.SplitRequestParamsOf` | web/src/main/java/org/openmrs/web/filter/initialization/TestInstallUtil.java:231-232 | A body `username=<a>&password=<b>` splits back into `a` and `b` whenever `a` holds no `&`. |
| `TestInstallUtil.RequestParams` | web/src/main/java/org/openmrs/web/filter/initialization/TestInstallUtil.java:231-232 | The body as the code writes it, with no form escaping. Its `username` and `password` fields are exactly the Base64 encodings of the two credentials. |
| `TestInstallUtil.RequestParamsRoundTrip` | web/src/main/java/org/openmrs/web/filter/initialization/TestInstallUtil.java:231-232 | A receiver that reads the raw body text recovers both credentials intact. This says nothing about a receiver that form-decodes the body; see Findings. |
| `TestInstallUtil.RequestParamsExample` | web/src/main/java/org/openmrs/web/filter/initialization/TestInstallUtil.java:231-232 | The credentials (`alice`, `pw`) give the body `UsernameField + "YWxpY2U=" + PasswordField + "cHc="`, that is `username=YWxpY2U=&password=cHc=`. |
| `TestInstallUtil.ClassifyResponse` | web/src/main/java/org/openmrs/web/filter/initialization/TestInstallUtil.java:243-248 | Code 401, and only 401, is an authentication failure with the message "Invalid username or password". Code 500, and only 500, is a server failure with the message "An error occurred on the production server". Every other code returns exactly the response body. |
| `TestInstallUtil.GetResourceInputStream` | web/src/main/java/org/openmrs/web/filter/initialization/TestInstallUtil.java:222-249 | The server receives the body `RequestParams(u, p)`. The result is a transport failure if and only if the server cannot be reached; otherwise it is the classification of the server's answer. |
| `TestInstallUtil.FetchAgainstCredentialCheck` | web/src/main/java/org/openmrs/web/filter/initialization/TestInstallUtil.java:231-248 | Take a server that reads the raw body, accepts one credential pair and answers 401 to anything else. The fetch returns its payload if and only if the credentials are that pair, and fails authentication otherwise. |
| `TestInstallUtil.RequestParamsFormDecodeLoses` | web/src/main/java/org/openmrs/web/filter/initialization/TestInstallUtil.java:231-232 | A receiver that form-decodes the body as written cannot read the user name `~~~` back: its encoding `fn5+` form-decodes to `fn5 `, which is not Base64. |
| `TestInstallUtil.FetchFormServerRejectsTildes` | web/src/main/java/org/openmrs/web/filter/initialization/TestInstallUtil.java:231-248 | Take a form-decoding server that accepts the user `~~~` with an empty password. The fetch with exactly those credentials fails authentication. |
| `TestInstallUtil.FormEscape` | web/src/main/java/org/openmrs/web/filter/initialization/TestInstallUtil.java:231-232 | Form escaping of a value, as `URLEncoder.encode` does for the Base64 alphabet: the result holds no `&`. |
| `TestInstallUtil.FormUnescapeEscape` | web/src/main/java/org/openmrs/web/filter/initialization/TestInstallUtil.java:231-232 | Form decoding undoes form escaping, for every string. |
| `TestInstallUtil.RequestParamsEscaped` | web/src/main/java/org/openmrs/web/filter/initialization/TestInstallUtil.java:231-232 | The body as evidently intended: each Base64 value is form-escaped, and its two fields are exactly those escaped values. |
| `TestInstallUtil.RequestParamsEscapedRoundTrip` | web/src/main/java/org/openmrs/web/filter/initialization/TestInstallUtil.java:231-232 | A receiver that form-decodes the escaped body recovers both credentials intact, whatever bytes they hold. |
| `JavaLang.Wrap32` | src/api/org/openmrs/ConceptName.java:43 | The truncation to a Java int is congruent to its argument modulo 2^32, lies in the int range, and leaves in-range values unchanged. |
| `JavaLang.Add32` | src/api/org/openmrs/ConceptName.java:43 | Java's `+` on ints: the result is congruent to the sum modulo 2^32, and equals it when the sum fits in an int. |
| `JavaLang.Add32Sum` | src/api/org/openmrs/ConceptName.java:43 | Adding three ints left to right, wrapping at each step, gives the wrapped mathematical sum. |
| `ConceptNames.ConceptName.constructor` | src/api/org/openmrs/ConceptName.java:26-27 | A new ConceptName has all six fields null. |
| `ConceptNames.ConceptName.SetConcept` | src/api/org/openmrs/ConceptName.java:51-57 | Only `concept` changes, and `getConcept` then returns the value set. |
| `ConceptNames.ConceptName.SetName` | src/api/org/openmrs/ConceptName.java:62-68 | Only `name` changes, and `getName` then returns the value set. |
| `ConceptNames.ConceptName.SetLocale` | src/api/org/openmrs/ConceptName.java:73-79 | Only `locale` changes, and `getLocale` then returns the value set. |
| `ConceptNames.ConceptName.SetShortName` | src/api/org/openmrs/ConceptName.java:84-94 | Only `shortName` changes, and `getShortName` then returns the value set. |
| `ConceptNames.ConceptName.SetCreator` | src/api/org/openmrs/ConceptName.java:99-109 | Only `creator` changes, and `getCreator` then returns the value set. |
| `ConceptNames.ConceptName.SetDateCreated` | src/api/org/openmrs/ConceptName.java:114-124 | Only `dateCreated` changes, and `getDateCreated` then returns the value set. |
| `ConceptNames.ConceptName.Equals` | src/api/org/openmrs/ConceptName.java:29-37 | Null and objects of other classes are never equal. For a ConceptName, the result is true if and only if concept, name and locale are each equal. It requires exactly that no null field is dereferenced on the path through the short-circuit `&&`. |
| `ConceptNames.ConceptName.HashCode` | src/api/org/openmrs/ConceptName.java:39-44 | The result is the identity hash when concept, name or locale is null. Otherwise it is the 32-bit wrapping sum of the three component hashes. |
| `ConceptNames.EqualsImpliesEqualHashCode` | src/api/org/openmrs/ConceptName.java:29-44 | ConceptNames that are `equals` have equal `hashCode`s, for any Concept and String hash functions. |
| `ConceptNames.EqualsIgnoresOtherFields` | src/api/org/openmrs/ConceptName.java:31-34 | shortName, creator and dateCreated play no part in `equals`. |
| `ConceptNames.EqualsReflexive` | src/api/org/openmrs/ConceptName.java:29-34 | A ConceptName with concept, name and locale set equals itself. |
| `ConceptNames.EqualsSymmetric` | src/api/org/openmrs/ConceptName.java:29-34 | Where both directions are defined, `a.equals(b) == b.equals(a)`. |
| `ConceptNames.EqualsTransitive` | src/api/org/openmrs/ConceptName.java:29-34 | `equals` is transitive. |
| `ConceptNames.FreshConceptName` | src/api/org/openmrs/ConceptName.java:26-44 | On a freshly constructed ConceptName, `equals` with any ConceptName dereferences a null field, while `hashCode` returns the identity hash. |
| `ConceptNames.SetKeyFields` | src/api/org/openmrs/ConceptName.java:29-79 | Two ConceptNames given the same concept, name and locale through the setters are equal and hash alike, even when their short names differ. |

## Findings

| source | as written | input that shows it | evidently intended | confidence | as-written member | corrected member |
|---|---|---|---|---|---|---|
| web/src/main/java/org/openmrs/web/filter/initialization/TestInstallUtil.java:231-232 | The Base64 values go into the POST body with no form escaping. `HttpURLConnection` sends the body as `application/x-www-form-urlencoded`, where `+` stands for a space. | User name `~~~` (bytes 7E 7E 7E) encodes as `fn5+`. A form decoder reads `fn5 `, which is not Base64, so that user can never authenticate. | Each value is form-escaped (`URLEncoder.encode`), so that a form-decoding server recovers both credentials. | medium, not executed: it holds when the receiving server form-decodes the body, and that server is not part of this model | `TestInstallUtil.RequestParamsFormDecodeLoses`, `TestInstallUtil.FetchFormServerRejectsTildes` | `TestInstallUtil.RequestParamsEscaped`, `TestInstallUtil.RequestParamsEscapedRoundTrip` |
| web/src/main/java/org/openmrs/web/filter/initialization/TestInstallUtil.java:149-152 | A name is reduced only if it contains `File.separator`. ZIP entry names use `/`, so on Windows, where the separator is `\`, nested names are not reduced. | On Windows, the entry `dir/b.omod` is kept whole. `new File(moduleRepository, "dir/b.omod")` then names a file in the sub-directory `dir`, and `FileOutputStream` fails unless that directory exists, so the method returns false. | The name is reduced at every path separator, `/` included, so that every module lands directly in the repository, as the comment before the test says. | medium, not executed: it needs a Windows host and an archive with nested module entries | `TestInstallUtil.StoredNameWindowsExample`, `TestInstallUtil.InstallAllWindowsKeepsSlash` | `TestInstallUtil.InstallAllIntendedNewNames`, `TestInstallUtil.InstallAllIntendedWindowsExample` |

`GetResourceInputStream` keeps the body as the code writes it, and `AddZippedTestModules` keeps the name test as the code writes it, so that each model of an operation matches the code. The corrected body and the corrected extraction are stated beside them, with their properties proved.

## Left out

- `testConnection` (TestInstallUtil.java:193-212) is not modelled. It only reports whether `HttpURLConnection.getContent()` raised an `IOException`.
- Running the process, reading the pipe and blocking in `waitFor` are not modelled. The process is its stderr lines plus its outcome. Whether stdout back-pressure could deadlock the child is a concurrency question outside this model.
- The zip format, `File.createTempFile`, `IOUtils.copy`, `ZipFile` and `FileOutputStream` are not modelled. The archive is its decoded entries, the repository is a map, and each place an `IOException` can arise is an `IoFault` value.
- TestInstallUtil.AddZippedTestModules: a copy that fails leaves its target file unchanged. The real code may leave that file created, truncated or partly written.
- TestInstallUtil.AddZippedTestModules: the repository is a flat map from names to bytes, with no directories. A name that keeps a `/` on Windows is a key like any other, so the model stores it, where the real copy fails unless the sub-directory exists. The model reaches that failure only through an `EntryCopy` fault.
- TestInstallUtil.AddZippedTestModules: a failure to close the zip file is logged and swallowed. It changes nothing, so it is not a separate fault.
- `OpenmrsUtil.getDirectoryInApplicationDataDirectory` is not called: the repository is a parameter. `OpenmrsUtil` and `ModuleConstants` are not part of this model.
- TestInstallUtil.BaseName: `File.getName` is modelled as the part after the last path separator. The path separators are the platform separator, plus `/` when it is the Windows backslash. Java's normalisation of repeated separators and of Windows drive and UNC prefixes is not modelled. For a name that holds a separator and ends in `.omod`, it leaves that last part unchanged.
- HTTP details are not modelled: the request method, the 15-second connect timeout, caching, the output writer, and the informational log line.
- TestInstallUtil.GetResourceInputStream: for codes of 400 and above other than 401 and 500, the JDK's `HttpURLConnection.getInputStream` itself raises an `IOException`. The model returns the body for every code other than 401 and 500, as the code reads.
- Credentials are taken as their UTF-8 byte sequences. The conversion of a Java string to UTF-8 is not modelled.
- The Base64 library (`org.apache.xerces.impl.dv.util.Base64`) is not part of this model. It is taken to produce standard RFC 4648 Base64 without line breaks.
- Logging is not modelled, except which stderr transcript `addTestData` logs.
- Strings are never null in the model. In Java, a null host, user and so on would appear in the command as the text `null`.
- The internals of `Concept.hashCode`, `String.hashCode` and `Object.hashCode` are not modelled. The first two are given functions. The identity hash is a constructor argument standing for the JVM's choice.
- `Concept`, `User` and `Date` are not part of this model. Each is a value compared with `==`, standing for its own `equals`.
- ConceptNames.ConceptName.Equals: a `NullPointerException` is modelled as a precondition, `EqualsDefined`, not as an outcome.
- `DrugOrder.java` is not modelled. Its `equals` and `hashCode` delegate to the `Order` superclass, which is not part of this model.
- `LoginServlet.java` is not modelled. It is servlet and session plumbing around a `Context` that is not part of this model.
