# A verified model of the core of vatosoa-wanda/framework

The framework is a small Java web MVC layer on servlets. It has five core
pieces, and this project models each in Dafny with its properties proved:

- **`UrlPatternMatcher`** (`pattern_matcher.dfy`, module `PatternMatcher`):
  - matches route templates such as `/users/{id}` against request paths, segment by segment;
  - extracts the `{name}` path variables.
- **`ScannerFramework`** (`scanner.dfy`, module `Scanner`):
  - builds the route table (template, then HTTP verb, then handler method) and the controller instances from annotated classes;
  - binds a request to a handler's arguments: form values, path variables, `Map<String, Object>` parameters, custom objects and arrays of them;
  - converts text to the parameter's type in `convertValue`.
- **`MultipartParser`** (`multipart_parser.dfy`, module `Multipart`):
  - sorts the parts of a `multipart/form-data` request into text fields and uploaded files;
  - finds the file name in a `Content-Disposition` header.
- **`FileUpload`** (`file_upload.dfy`, module `Upload`): an uploaded file, with a size kept beside its bytes, and its extension.
- **`ModelView`** (`model_view.dfy`, module `View`): the view name a handler picks and the model map the view renders.

The Java library calls these rely on are written out in `java_text.dfy`:

- `String.split` on a one-character separator, with Java's rule of dropping trailing empty strings;
- `trim`, `startsWith`/`endsWith`, `indexOf`/`lastIndexOf`;
- ASCII `toLowerCase` and `equalsIgnoreCase`;
- `Integer.parseInt` and `Long.parseLong`.

A Java `null` is `Option.None`.

The model takes the shape of the code:

- **Classes.** `ScannerFramework`, `MultipartParser`, `FileUpload`, `ModelView` and the `HashMap` behind the model are Dafny classes. Their methods assign the same fields, and each states its complete new state.
- **Loops.** The loops of `matches`, `extractVariables`, `processClass`, `parse`, `getFileName`, the field loop and `mapFormParametersToMethodArgs` are `while`/`for` loops. Each is proved against a pure specification function, and the lemmas state the source's promises about those functions.
- **Pure code.** `convertValue`, `isMultipartRequest`, `getExtension` and the getters are functions.

Reflection is replaced by plain descriptors of classes, methods, parameters and Java types. Each descriptor carries only what the code inspects:

- annotations;
- whether a no-argument constructor succeeds;
- declared fields with their initial values.

## Model

| member | source | states |
|---|---|---|
| JavaText.Split | src/url/UrlPatternMatcher.java:9-10 | `split` on one character: no piece contains the separator; `""` gives `[""]`; otherwise the last piece is not empty (trailing empty strings dropped) |
| JavaText.SplitJoin | src/url/UrlPatternMatcher.java:9-10 | split inverts joining, for separator-free pieces whose last piece is non-empty |
| JavaText.JoinPieces | src/url/UrlPatternMatcher.java:9-10 | joining the pieces of a string back with the separator gives the string (nothing is lost before trailing empties are dropped) |
| JavaText.SplitTrailingSeparators | src/url/UrlPatternMatcher.java:9-10 | any number of trailing separators after a non-empty string leave the split unchanged |
| JavaText.SplitOfSeparators | src/url/UrlPatternMatcher.java:9-10 | a string of separators only (such as `/`) splits into no pieces at all |
| JavaText.SplitOfFree | src/upload/MultipartParser.java:80 | a string without the separator splits into itself alone |
| JavaText.Trim | src/upload/MultipartParser.java:81-82 | `trim` yields no longer a string, with no character up to U+0020 at either end; empty only if every character was white space |
| JavaText.TrimStripsEnds | src/upload/MultipartParser.java:81-82 | `trim` removes white space from both ends and nothing else: the result is an infix of the input with only white space before and after it |
| JavaText.IndexOf | src/upload/MultipartParser.java:82 | the first position of the character, -1 exactly when absent |
| JavaText.LastIndexOf | src/upload/FileUpload.java:69 | the last position of the character (none after it), -1 exactly when absent |
| JavaText.ToLower | src/upload/MultipartParser.java:35 | same length, each ASCII capital lowered by 32, every other character kept |
| JavaText.ToLowerIdentity | src/upload/MultipartParser.java:35 | text whose characters are all lower case is unchanged by lower-casing |
| JavaText.ToLowerPrefix | src/upload/MultipartParser.java:35 | lower-casing commutes with taking a prefix |
| JavaText.LowerPrefix | src/upload/MultipartParser.java:35 | testing a lower-case prefix on the lower-cased text is testing the text's start ignoring case |
| JavaText.EqualsIgnoreCaseLower | src/url/ScannerFramework.java:251 | against an all-lower-case string, `equalsIgnoreCase` is equality of the lower-cased text |
| JavaText.ParseInt | src/url/ScannerFramework.java:247 | `Integer.parseInt` succeeds exactly on a signed decimal within the int range, and the result is in range |
| JavaText.ParseLong | src/url/ScannerFramework.java:248 | `Long.parseLong` succeeds exactly on a signed decimal within the long range |
| JavaText.ParseFormat | src/url/ScannerFramework.java:247-248 | parsing the decimal text of any integer gives that integer back |
| PatternMatcher.VariableName | src/url/UrlPatternMatcher.java:31 | the name of a `{...}` segment is what lies between the braces: the segment is `"{" + name + "}"` |
| PatternMatcher.Matches | src/url/UrlPatternMatcher.java:8-21 | `matches` computes PatternMatches; it is false when the segment counts differ |
| PatternMatcher.ExtractVariables | src/url/UrlPatternMatcher.java:23-36 | `extractVariables` computes Variables; the empty map when the segment counts differ |
| PatternMatcher.BindingsKeys | src/url/UrlPatternMatcher.java:29-34 | the keys bound by the first n segments are exactly the names of the variable segments among them |
| PatternMatcher.BindingsLastWins | src/url/UrlPatternMatcher.java:32 | a bound name holds the path segment at its last variable occurrence |
| PatternMatcher.VariablesKeys | src/url/UrlPatternMatcher.java:27-34 | with equal counts, the variables are exactly the inner names of segments both starting with `{` and ending with `}` |
| PatternMatcher.VariablesValue | src/url/UrlPatternMatcher.java:29-34 | each variable maps to the path segment at the index of its last occurrence |
| PatternMatcher.CountMismatch | src/url/UrlPatternMatcher.java:11 | different segment counts: no match and no bindings |
| PatternMatcher.MatchesReflexive | src/url/UrlPatternMatcher.java:11-20 | every string matches itself |
| PatternMatcher.BindingsIgnoreLiterals | src/url/UrlPatternMatcher.java:29-34 | the bindings of a prefix depend only on the path segments at variable positions |
| PatternMatcher.VariablesIgnoreLiterals | src/url/UrlPatternMatcher.java:27-34 | two paths with equal counts that agree at the variable positions give the same bindings, matched or not |
| PatternMatcher.BindingsWithoutMatch | src/url/UrlPatternMatcher.java:27-34 | bindings are returned for a path that `matches` rejects |
| PatternMatcher.HalfBracedSegment | src/url/UrlPatternMatcher.java:14 | `{id` and `id}` are wildcards for `matches` (any segment, even empty, matches) but bind nothing |
| PatternMatcher.RepeatedVariableLaterWins | src/url/UrlPatternMatcher.java:32 | a repeated variable is bound to the segment of its later occurrence |
| PatternMatcher.TrailingSlashes | src/url/UrlPatternMatcher.java:9-10 | trailing slashes after a non-empty path change neither the match nor the bindings |
| PatternMatcher.SlashesHaveNoSegments | src/url/UrlPatternMatcher.java:9-11 | a path of slashes only has no segments while `""` has one empty segment, so `/` matches any such path, binds nothing, and does not match `""` |
| PatternMatcher.RootPath | src/url/UrlPatternMatcher.java:8-21 | `/` has no segments: `matches("/", "/")` holds and `matches("/", "")` does not |
| PatternMatcher.SegmentsOfUsers | src/url/UrlPatternMatcher.java:9 | `/users` splits into `""` and `users` |
| PatternMatcher.UsersWithTrailingSlash | src/url/UrlPatternMatcher.java:8-21 | `matches("/users", "/users/")` holds |
| PatternMatcher.UserIdSegments | src/url/UrlPatternMatcher.java:9-10 | `/users/{id}` and `/users/42` each split into three segments, the first empty |
| PatternMatcher.UserIdBindings | src/url/UrlPatternMatcher.java:13-34 | those segments match and bind `id` to `42` |
| PatternMatcher.UserIdExample | src/url/UrlPatternMatcher.java:8-36 | `matches("/users/{id}", "/users/42")` and `extractVariables` gives `{id=42}` |
| Scanner.Put | src/url/ScannerFramework.java:65 | `computeIfAbsent(template).put(verb, h)`: the template is added to the keys and (template, verb) looks up h |
| Scanner.ScannerFramework.constructor | src/url/ScannerFramework.java:24-25 | both maps start empty |
| Scanner.ScannerFramework.RegisterMethod | src/url/ScannerFramework.java:63-111 | one pass of the annotation chain leaves the table as Register says |
| Scanner.ScannerFramework.AddRoute | src/url/ScannerFramework.java:65 | the table after `computeIfAbsent(...).put(...)` is Put of the old one |
| Scanner.ScannerFramework.ProcessClass | src/url/ScannerFramework.java:53-120 | a @Controller class with a working constructor gets one instance under its name and its methods registered in order; any other class changes nothing |
| Scanner.ScannerFramework.Scan | src/url/ScannerFramework.java:28-51 | the classes processed in order give ScanTable and ScanControllers |
| Scanner.RouteOfOrder | src/url/ScannerFramework.java:63-93 | UrlMapping first (its verb), else UrlGet as GET, else UrlPost as POST; none of these registers nothing |
| Scanner.JsonOnlyAddsNothing | src/url/ScannerFramework.java:94-100 | a method with only @Json adds no route |
| Scanner.PutLookup | src/url/ScannerFramework.java:65 | a put overwrites exactly one (template, verb) entry and keeps all others, other verbs of the same template included |
| Scanner.RegisterAllLookup | src/url/ScannerFramework.java:62-112 | after registering a class, each entry holds the last method registered under it, or its previous handler |
| Scanner.RegisterAllKeys | src/url/ScannerFramework.java:62-112 | registration adds the routed templates and removes no template |
| Scanner.ScanControllersKeys | src/url/ScannerFramework.java:58-60 | a name has a controller exactly when it had one or some registering class has that name; a new one is an instance of that class |
| Scanner.GetParameter | src/url/ScannerFramework.java:164 | `getParameter` is the first submitted value, or null when the name has no value |
| Scanner.ConvertValue | src/url/ScannerFramework.java:234-256 | a text converts to null for every type other than String, int, long, double, float, boolean and their boxes; an int or long conversion is null exactly when the parse fails; the other handled types never give null |
| Scanner.ConvertMissing | src/url/ScannerFramework.java:235-243 | null converts to 0, 0L, 0.0, 0.0f, false for the five primitives and to null for every other type, Integer and String included |
| Scanner.ConvertBoolean | src/url/ScannerFramework.java:251 | a boolean is true exactly when the text is `true` in any letter case |
| Scanner.ConvertIntRoundTrip | src/url/ScannerFramework.java:247 | the decimal text of an int converts back to that int |
| Scanner.ConvertIntOverflow | src/url/ScannerFramework.java:245-255 | decimal text outside the int range converts to null |
| Scanner.ConvertLongRoundTrip | src/url/ScannerFramework.java:248 | the decimal text of a long converts back to that long |
| Scanner.ConvertIntInRange | src/url/ScannerFramework.java:245-255 | an int conversion is null or an int within range |
| Scanner.FirstValues | src/url/ScannerFramework.java:147-150 | the map parameter has exactly the request keys, each with its first value or null |
| Scanner.CollectFirstValues | src/url/ScannerFramework.java:147-150 | the entry-set loop builds FirstValues |
| Scanner.FreshInstance | src/url/ScannerFramework.java:160 | a fresh instance has every declared field |
| Scanner.ResolveScalar | src/url/ScannerFramework.java:204-223 | the three guarded reassignments compute ScalarValue |
| Scanner.PopulateFields | src/url/ScannerFramework.java:160-169 | the field loop succeeds exactly when SetFields does, and yields its object |
| Scanner.FailureSticks | src/url/ScannerFramework.java:159-176 | once a field throws, the whole field loop has thrown |
| Scanner.NewPopulated | src/url/ScannerFramework.java:158-193 | instantiation plus the field loop is Instantiate |
| Scanner.BindParameter | src/url/ScannerFramework.java:138-227 | one pass of the parameter loop yields BindParam |
| Scanner.MapFormParametersToMethodArgs | src/url/ScannerFramework.java:128-230 | a fresh array of the parameters' length, with element i bound by BindParam, using path variables only when template and path are both given |
| Scanner.MapFormParametersToMethodArgsNoPath | src/url/ScannerFramework.java:124-126 | the two-argument overload binds with no path variables |
| Scanner.FirstNonEmptyCons | src/url/ScannerFramework.java:214-223 | the first non-empty candidate of a longer list: the head if it is non-empty or the last one, else the rest's |
| Scanner.StepsPickFirstNonEmpty | src/url/ScannerFramework.java:204-223 | three steps guarded by "still null or empty" pick the first non-empty applicable candidate, else the last applicable |
| Scanner.ScalarPrecedence | src/url/ScannerFramework.java:207-223 | the @Param value wins when non-empty, then the declared name, then the path variable |
| Scanner.FormBeatsPathVariable | src/url/ScannerFramework.java:214-223 | a non-empty form value of the declared name beats a path variable of that name |
| Scanner.NoPathNoVariables | src/url/ScannerFramework.java:125-135 | without both template and path, the path-variable map is empty |
| Scanner.MapParameter | src/url/ScannerFramework.java:141-153 | a `Map<String, Object>` parameter gets every request key with its first value or null |
| Scanner.SetFieldSpec | src/url/ScannerFramework.java:163-168 | one field throws exactly when a submitted value converts to null for a primitive, otherwise only that field changes |
| Scanner.SetFieldsSucceed | src/url/ScannerFramework.java:161-169 | the field loop succeeds exactly when no field's setting throws |
| Scanner.SetFieldsSpec | src/url/ScannerFramework.java:161-169 | after n fields: success as above; the keys are the declared fields; the first n are populated, the rest keep their initial values |
| Scanner.SetFieldsValues | src/url/ScannerFramework.java:161-169 | the values part of SetFieldsSpec, by induction on n |
| Scanner.SetFieldsValuesStep | src/url/ScannerFramework.java:163-168 | the inductive step: setting field n keeps the others |
| Scanner.SetFieldsLast | src/url/ScannerFramework.java:161-169 | the field loop is its prefix followed by the last field |
| Scanner.SetFieldKeeps | src/url/ScannerFramework.java:167 | `field.set` leaves every other field as it was |
| Scanner.FreshInstanceSpec | src/url/ScannerFramework.java:160 | a fresh instance holds exactly the declared fields, each with its initial value |
| Scanner.PopulatedObject | src/url/ScannerFramework.java:158-172 | a populated object has exactly the declared fields, each set from the same-named parameter when one is submitted and default otherwise, unless a field throws |
| Scanner.CustomParameter | src/url/ScannerFramework.java:158-172 | a custom parameter that instantiates and populates gets that object |
| Scanner.ArrayParameter | src/url/ScannerFramework.java:180-197 | an array-of-custom parameter gets an array of exactly one populated element |
| Scanner.FailedInstantiationFallsThrough | src/url/ScannerFramework.java:158-226 | whenever the object rule and the array rule both produce nothing (no working constructor, or a field that cannot be set, for the type or the array component), the parameter gets the scalar value |
| Scanner.BoxedNeverInstantiated | src/url/ScannerFramework.java:158-160 | a boxed type (Integer, Long, ...) is never instantiated, having no no-argument constructor |
| Scanner.FieldFailureFailsInstantiation | src/url/ScannerFramework.java:161-176 | a class whose constructor works but one of whose fields cannot be set yields no object |
| Multipart.IsMultipartRequest | src/upload/MultipartParser.java:33-36 | a request is multipart exactly when its content type is non-null and begins with `multipart/` in any mix of cases |
| Multipart.Unquote | src/upload/MultipartParser.java:84-85 | quote stripping always yields a name or the lone-quote failure, never null |
| Multipart.TokenFileName | src/upload/MultipartParser.java:82-87 | the value of a filename token is never null |
| Multipart.TokenValue | src/upload/MultipartParser.java:82-87 | the reassignments of `fileName` compute TokenFileName |
| Multipart.FirstFileName | src/upload/MultipartParser.java:80-91 | the token loop returns at the first filename token, else null |
| Multipart.GetFileName | src/upload/MultipartParser.java:77-92 | `getFileName` computes FileNameOf of the part's header |
| Multipart.FileNameInAbsent | src/upload/MultipartParser.java:80-91 | the token loop gives null exactly when no token is a filename token |
| Multipart.FileNameAbsent | src/upload/MultipartParser.java:78-91 | null exactly when the header is absent or none of its `;`-tokens, trimmed, starts with `filename` |
| Multipart.FileNameFirstToken | src/upload/MultipartParser.java:80-88 | the first filename token decides, whatever follows it |
| Multipart.TrimSelf | src/upload/MultipartParser.java:81 | trim changes nothing without white space at either end |
| Multipart.TrimPadded | src/upload/MultipartParser.java:81 | trim removes the space after a `;` |
| Multipart.DispositionTokens | src/upload/MultipartParser.java:80 | a browser's file header splits into its three tokens |
| Multipart.UnpaddedToken | src/upload/MultipartParser.java:81 | a token with no white space at its ends is a filename token by its own start |
| Multipart.PaddedToken | src/upload/MultipartParser.java:81 | the same after a leading space |
| Multipart.TokenValueIs | src/upload/MultipartParser.java:82-87 | the trimmed text after the first `=` decides the filename |
| Multipart.TokenValueBare | src/upload/MultipartParser.java:82 | without `=` (indexOf gives -1), the whole trimmed token is the value |
| Multipart.UnquoteQuoted | src/upload/MultipartParser.java:84-85 | one pair of surrounding quotes is removed |
| Multipart.QuotedFileName | src/upload/MultipartParser.java:82-87 | ` filename="f"` yields `f` |
| Multipart.ThirdTokenDecides | src/upload/MultipartParser.java:80-89 | two non-filename tokens then a filename token: the third decides |
| Multipart.FileNameOfDisposition | src/upload/MultipartParser.java:77-92 | the name is recovered from `form-data; name="n"; filename="f"` for any n and f without `;` |
| Multipart.SingleToken | src/upload/MultipartParser.java:80-91 | a one-token header gives its value if it is a filename token, else null |
| Multipart.BareFileName | src/upload/MultipartParser.java:82 | a bare `filename...` token without `=` names itself |
| Multipart.LoneQuoteValue | src/upload/MultipartParser.java:84-85 | a lone `"` both starts and ends with a quote, and stripping it fails |
| Multipart.LoneQuoteMalformed | src/upload/MultipartParser.java:84-85 | a filename token whose value is a lone `"` fails, as `substring(1, 0)` throws |
| Multipart.LoneQuoteHeader | src/upload/MultipartParser.java:78-87 | a header `filename="` (a lone quote as the value) makes getFileName fail |
| Multipart.Uploaded | src/upload/MultipartParser.java:57-60 | the new FileUpload holds the name, the part's content type and bytes, and their length as size |
| Multipart.StepFor | src/upload/MultipartParser.java:50-69 | a null or empty name makes a text field with the part's name and text; a non-empty name makes a file of that name with the part's content; the lone quote, and only it, a failure |
| Multipart.Steps | src/upload/MultipartParser.java:46 | one step per part |
| Multipart.StepsAt | src/upload/MultipartParser.java:46-48 | step i is the step of part i |
| Multipart.CountBeforeFail | src/upload/MultipartParser.java:46-71 | the count of parts applied before a failure is at most the number of parts |
| Multipart.CountBeforeFailSpec | src/upload/MultipartParser.java:46-71 | no step before the count fails, and the one at the count does |
| Multipart.CountBeforeFailAt | src/upload/MultipartParser.java:46-71 | a failing step ends the count, any other lets it continue |
| Multipart.Applied | src/upload/MultipartParser.java:42-44 | a non-multipart request applies no step |
| Multipart.TextsNamedSnoc | src/upload/MultipartParser.java:53 | one more step adds its text to the texts under its name |
| Multipart.UploadsNamedSnoc | src/upload/MultipartParser.java:66 | one more step adds its file to the files under its name |
| Multipart.LastFieldWins | src/upload/MultipartParser.java:50-54 | `formFields[n]` is the last text sent under n; with none it keeps its old entry |
| Multipart.FilesInArrivalOrder | src/upload/MultipartParser.java:66 | `multiFiles[n]` is its old list followed by every file sent under n, in order |
| Multipart.SingleIsLastUpload | src/upload/MultipartParser.java:63 | `singleFiles[n]` is the last file sent under n; with none it keeps its old entry |
| Multipart.AgreePreserved | src/upload/MultipartParser.java:63-66 | the single file stays the last element of the non-empty list under the same name |
| Multipart.AfterSnoc | src/upload/MultipartParser.java:46-71 | each fold takes one more part by applying it to the state so far |
| Multipart.TextAndFilesSeparate | src/upload/MultipartParser.java:50-69 | a text field leaves both file maps alone; a file leaves the text fields alone |
| Multipart.FilePartIsStored | src/upload/MultipartParser.java:48-66 | a part with a browser file header and a non-empty filename is stored as that file |
| Multipart.FilesViewUpdate | src/upload/MultipartParser.java:66 | appending a file to a list appends its record |
| Multipart.SinglesViewUpdate | src/upload/MultipartParser.java:63 | putting a file puts its record |
| Multipart.ValidPut | src/upload/MultipartParser.java:63-66 | the two puts keep every single file the last of its list |
| Multipart.MultipartParser.constructor | src/upload/MultipartParser.java:24-28 | three empty maps |
| Multipart.MultipartParser.Parse | src/upload/MultipartParser.java:41-72 | nothing changes unless multipart; then the parts are applied in order up to the first lone-quote failure, the three maps end as the folds say, and the single/multi link is kept |
| Multipart.MultipartParser.ParsePart | src/upload/MultipartParser.java:47-70 | one part is stored as its step says, or nothing changes and parse fails |
| Multipart.MultipartParser.StorePart | src/upload/MultipartParser.java:50-70 | a text field or a file is stored; the lone-quote failure stores nothing |
| Multipart.MultipartParser.StoreUpload | src/upload/MultipartParser.java:57-66 | the new file is the single file under the name and is appended to its list |
| Multipart.MultipartParser.GetField | src/upload/MultipartParser.java:140-142 | the text under the name, or null |
| Multipart.MultipartParser.GetFile | src/upload/MultipartParser.java:147-149 | with the link kept, null exactly for an empty list, else the last file of the list |
| Multipart.MultipartParser.GetFiles | src/upload/MultipartParser.java:154-156 | the files under the name, or the empty list for an unknown name |
| Multipart.MultipartParser.HasFile | src/upload/MultipartParser.java:161-164 | a single file exists and is not empty; with the link kept, the last of the list is not empty |
| Upload.SizeOf | src/upload/FileUpload.java:18 | the length of the content, 0 for null |
| Upload.Extension | src/upload/FileUpload.java:65-70 | `""` without a name or a dot; otherwise the suffix after a dot, never containing a dot |
| Upload.ExtensionAfterLastDot | src/upload/FileUpload.java:69 | the extension of `base.ext` is `ext` for any base, so `a.tar.gz` gives `gz` and `name.` gives `""` |
| Upload.FileUpload.Empty | src/upload/FileUpload.java:12 | every field at its Java default |
| Upload.FileUpload.constructor | src/upload/FileUpload.java:14-19 | the three fields as given, and the size is the content's length or 0 |
| Upload.FileUpload.SetFileName | src/upload/FileUpload.java:26-28 | only the file name changes |
| Upload.FileUpload.SetContentType | src/upload/FileUpload.java:34-36 | only the content type changes |
| Upload.FileUpload.SetBytes | src/upload/FileUpload.java:42-45 | bytes and size change together, restoring the size/bytes link |
| Upload.FileUpload.SetSize | src/upload/FileUpload.java:51-53 | only the size changes, and the link holds afterwards exactly when it equals the content's length |
| Upload.FileUpload.IsEmpty | src/upload/FileUpload.java:58-60 | while the link holds, empty exactly when the size is 0 |
| View.HashMap.constructor | src/view/ModelView.java:11 | a new map is empty |
| View.HashMap.Put | src/view/ModelView.java:26 | the key is bound to the value; everything else is kept |
| View.ModelView.constructor | src/view/ModelView.java:10-12 | null view and a fresh empty model |
| View.ModelView.WithView | src/view/ModelView.java:14-17 | the given view and a fresh empty model |
| View.ModelView.SetView | src/view/ModelView.java:20 | only the view changes |
| View.ModelView.SetModel | src/view/ModelView.java:23 | the model becomes the caller's map itself, its entries and the view unchanged |
| View.ModelView.AddObject | src/view/ModelView.java:25-27 | the key holds the value, overwriting any earlier one; every other key and the view are unchanged |
| View.AddAll | src/view/ModelView.java:25-27 | a fold of `put` updates over a list of additions: the keys are the old ones plus the added ones |
| View.AddAllSnoc | src/view/ModelView.java:25-27 | one more addition is exactly the update AddObject's ensures states, so a series of addObject calls yields AddAll |
| View.AddAllLastWins | src/view/ModelView.java:26 | a key ends with the value of its last addObject |
| View.AddAllUntouched | src/view/ModelView.java:26 | a key no addObject names keeps its value |

## Left out

- The recursive directory walk in `scan`/`scanPackage`, `Class.forName` and the `ClassNotFoundException` it raises: `Scan` takes the list of loaded classes, in the order the walk finds them.
- Reflection (`getDeclaredMethods`, `getDeclaredFields`, `newInstance`, `setAccessible`, `Array.newInstance`): classes, methods, parameters, fields and Java types are descriptors, and whether a no-argument constructor succeeds is a flag. A class's own field initialisers are its fields' initial values.
- Scanner.ConvertValue: `Double.parseDouble` and `Float.parseFloat` are not modelled. A double or float conversion of a non-null text is the uninterpreted value `ParsedFrom(text)`; the text it would fail on (and turn into null) is not modelled, because floating point is out of scope.
- JavaText.ParseInt: only ASCII decimal digits are accepted. Java's `parseInt` also accepts other Unicode decimal digits.
- JavaText.ParseLong: only ASCII decimal digits are accepted. Java's `parseLong` also accepts other Unicode decimal digits.
- JavaText.ToLower: only the ASCII capitals are lowered, independent of locale. `toLowerCase()` in `isMultipartRequest` uses the default locale: under a Turkish locale `I` lowers to a dotless `ı`, so Java does not treat `MULTIPART/form-data` as multipart while the model does.
- Multipart.IsMultipartRequest: the prefix test is locale-independent. Under a Turkish default locale Java rejects a content type spelled with a capital `I` (`MULTIPART/...`), which the model accepts. In a root or English locale no other character can complete the match.
- The `Map<String, Object>` test on the parameter's generic type is reduced to a flag on the `Map` type. A `Map` parameter with other type arguments falls through to the scalar rules, as in the source.
- The custom-object and array rules catch every exception. The model represents two of them: a missing or failing no-argument constructor, and a null set into a primitive field. Other reflective failures are not modelled: `field.set` on a `static final` field (IllegalAccessException), and `setAccessible(true)` on a field of a class in a module that does not open its package (InaccessibleObjectException). Both make the object rule fall through in Java; the descriptors cannot express them. Two further behaviours are lost. A static non-final field that `getDeclaredFields` returns is stored once per class in Java and keeps its value across requests; the model stores it per object and resets it to its initial value in every `FreshInstance`. A primitive `double` or `float` field given text that does not parse is set in the model (see Scanner.ConvertValue), whereas in Java `convertValue` returns null, `field.set(obj, null)` throws and the rule falls through (ScannerFramework.java:163-173).
- Scanner.RegisterAllLookup: a (template, verb) collision inside one class is won by the later method in `c.methods`. Java's `getDeclaredMethods()` returns a class's methods in no specified order, so which one wins in Java is unspecified.
- `readPartAsString`/`readPartAsBytes` (stream reading, UTF-8 decoding), `request.getParts()` and `IOException`/`ServletException`: a part carries its content as bytes and as decoded text, and the request is the list of its parts in the container's order.
- Multipart.MultipartParser.Parse: a lone `"` as the filename makes Java's `substring` throw out of `parse`; the model returns `false` instead. The effects of earlier parts are kept, as in Java.
- View.ModelView.AddObject: keys are `string`, so `addObject(null, value)`, which a `HashMap` accepts, cannot be expressed. It also requires a non-null model. `setModel(null)` followed by `addObject` makes Java throw `NullPointerException`, which the model does not represent.
- The getters (`getUrlMappings`, `getControllers`, `getFormFields`, `getSingleFiles`, `getMultiFiles`, `getFileName`, `getContentType`, `getBytes`, `getSize`, `getView`, `getModel`) are reads of the Dafny fields. Java returns the live maps and arrays, so a caller can alias them; the model's maps are values, except the `ModelView` model, which is a shared object.
- Scanner.HandlerRef: a handler is identified by its class and method name. Overloaded controller methods of the same name are distinct `Method` objects in Java but equal handler values here.
- All `System.out`/`System.err` logging and `toString`.
- `FrontServlet` (servlet lifecycle, dispatch and HTML output) and the `HandleUrl` annotation are not part of this model.
- Literal headers are covered by lemmas over any field and file name rather than by fixed examples.
