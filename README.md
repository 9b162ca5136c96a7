# Personal website: request handlers and skill lookups in Dafny

This project models the server-side logic and the data shaping of a
Next.js portfolio site.

- **Contact form** (`POST /api/contact`, module `Contact`). An ordered
  chain of guard clauses checks four JSON fields, the e-mail pattern
  `/^[^\s@]+@[^\s@]+\.[^\s@]+$/` and the mail credentials. Then one
  e-mail is composed from a fixed HTML template, with the message's
  newlines turned into `<br>`. A failed send is classified by the error's
  message.
- **Resume download** (`GET /api/resume`, module `Resume`). The handler
  picks a file from the resumes directory listing: first a name that
  contains "resume" and ends with the requested format, then, for "docx"
  and "pdf" only, any name with that suffix. The Content-Type and
  Content-Disposition headers come from the chosen file's extension. A
  `Headers` object is a class whose `Set` updates its map in place.
- **Category lookups** (module `SkillCategories`). These are the colour
  and label tables of the skill categories, each with a default.
- **Skills section** (module `Skills`). Skills are grouped by category
  with a loop that updates a map of groups and a list of keys in first
  appearance order. The "Core Competencies" counts and the year/years
  label of a skill are also modelled.

Supporting modules:
- `Wrappers` holds the `Option` type.
- `Strings` holds the JavaScript string operations the handlers call:
  `includes`, `endsWith`, and ASCII `toLowerCase`/`toUpperCase`. It also
  holds the model's own helpers `StartsWith`, which `Includes` is built
  on, and `IndexOf` of a character, which the character-level e-mail test
  uses.
- `SiteTypes` holds the `Skill` record and its six categories.

Inputs stand in for the effects:
- the parsed request body, or the message of the error thrown before
  the field checks, by `request.json()` or by destructuring a `null` body;
- `EMAIL_USER` and `EMAIL_PASS`;
- the outcome of `sendMail`;
- the `format` query parameter;
- the names `fs.readdir` returned, or its failure;
- whether `fs.readFile` fails.

The contact handler is a pure function from these inputs to the reply and
the mail handed to `sendMail`. The resume handler is a method, as in the
source: it reassigns the chosen file and fills a `Headers` object.

The contact handler does no rate limiting, CAPTCHA verification, HTML
escaping or length limiting. The model interpolates the fields into the
HTML unescaped, as the handler does.

The resume handler's `headers.set` throws a `TypeError` for a value that
is not a byte string (a character above U+00FF) or that holds NUL, LF or
CR. The extension of the chosen file goes straight into the
Content-Disposition value, so such a file name ends in the handler's
`catch` block. The model keeps that error path.

## Model

| member | source | states |
|---|---|---|
| Contact.MissingFieldRejected | app/api/contact/route.ts:6-15 | A missing or empty field, and only that, gives 400 "All fields are required", and no mail is sent |
| Contact.EmailTestMatchesPattern | app/api/contact/route.ts:18-19 | The character-level e-mail test accepts exactly the strings of the regular expression's language (a non-empty `[^\s@]` run, "@", a run, ".", a run) |
| Contact.EmailTestSound | app/api/contact/route.ts:18-19 | An address the test accepts splits as local part "@" domain "." top-level part, each a non-empty run of `[^\s@]` |
| Contact.EmailTestComplete | app/api/contact/route.ts:18-19 | Every address with such a split passes the test |
| Contact.EmailFormatChecked | app/api/contact/route.ts:17-24 | With all fields present, 400 "Invalid email format" is returned exactly when the e-mail is outside the pattern, and then nothing is sent |
| Contact.ConfigurationChecked | app/api/contact/route.ts:26-33 | After both field checks pass, a missing or empty credential, and only that, gives 500 "Email service not configured", with nothing sent |
| Contact.FieldChecksComeFirst | app/api/contact/route.ts:9-33 | A failed field check decides the reply whatever the credentials and the send outcome are |
| Contact.SentIffChecksPass | app/api/contact/route.ts:4-60 | A mail is handed to `sendMail` exactly when the body parsed, every field is present, the e-mail matches and both credentials are set |
| Contact.ComposedMail | app/api/contact/route.ts:45-57 | The mail goes from EMAIL_USER to the fixed recipient, its subject is "Portfolio Contact: " + subject, and its HTML is the template with the message, newlines replaced, at its place |
| Contact.RenderHtmlFields | app/api/contact/route.ts:49-56 | The HTML starts and ends with the template's fixed text, holds name, e-mail and subject unchanged at their places, and holds the message with no newline left |
| Contact.TemplatePlaces | app/api/contact/route.ts:49-56 | In any five-piece template the four interpolated values sit at the offsets given by the lengths of what precedes them |
| Contact.BreakLinesNoNewline | app/api/contact/route.ts:55 | The global replacement leaves no newline in the message |
| Contact.BreakLinesAppend | app/api/contact/route.ts:55 | The replacement is global: it acts on each part of a concatenation independently |
| Contact.BreakLinesKeepsText | app/api/contact/route.ts:55 | A message without newlines is carried over unchanged |
| Contact.BreakLinesAtNewline | app/api/contact/route.ts:55 | Each newline becomes exactly one `<br>` between the replaced text around it |
| Contact.BreakLinesLength | app/api/contact/route.ts:55 | The replaced message is three characters longer per newline |
| Contact.SuccessIffDelivered | app/api/contact/route.ts:59-65 | 200 "Message sent successfully!" is returned exactly when a mail was handed over and delivered |
| Contact.SendFailureClassified | app/api/contact/route.ts:66-89 | A thrown `Error` whose message contains "Invalid login" gives 500 "Email service authentication failed". Otherwise, one containing "Invalid email" gives 400 "Invalid email address". Anything else, including a non-`Error`, gives 500 "Failed to send message. Please try again." |
| Contact.StatusClasses | app/api/contact/route.ts:4-90 | Every reply has status 200, 400 or 500, and only 200 carries a `message` rather than an `error` |
| Contact.BadRequestCauses | app/api/contact/route.ts:4-89 | Status 400 has exactly four causes: (1) a body that could not be read, failing with an error that names "Invalid email" but not "Invalid login"; (2) a missing field; (3) an e-mail outside the pattern; (4) a send error that names "Invalid email" but not "Invalid login" |
| Strings.IncludesOccurs | app/api/contact/route.ts:71 | `includes` is true exactly when the substring occurs at some index |
| Strings.IndexOf | app/api/contact/route.ts:18 | The first occurrence of a character, or the length when there is none |
| Strings.ToLowerAt | app/api/resume/route.ts:19-20 | Lower-casing works character by character |
| Strings.ToUpperAt | app/api/resume/route.ts:36 | Upper-casing works character by character |
| Strings.LowerKeepsSuffix | app/api/resume/route.ts:20 | A suffix of a name stays a suffix after both are lower-cased |
| Strings.CountAbsent | app/api/contact/route.ts:55 | A character's count is zero exactly when it does not occur |
| Resume.Headers.constructor | app/api/resume/route.ts:45 | A new `Headers` object is empty |
| Resume.HeaderValueConcat | app/api/resume/route.ts:60-63 | A concatenation is a valid header value exactly when both of its parts are |
| Resume.Headers.Set | app/api/resume/route.ts:50-63 | `set` succeeds exactly when the value is a valid header value. It then maps the name to the value, replacing any earlier value of that name and changing no other entry. An invalid value throws and leaves the headers unchanged |
| Resume.FormatOf | app/api/resume/route.ts:11 | The format is the query parameter when it is present and non-empty, and "pdf" otherwise. It is never empty |
| Resume.FirstIndex | app/api/resume/route.ts:17-31 | `find` returns the first name the predicate accepts: no earlier name is accepted, and the returned one is |
| Resume.Chosen | app/api/resume/route.ts:16-31 | A chosen file is in the listing and its lower-cased name ends with the lower-cased format |
| Resume.SelectResume | app/api/resume/route.ts:16-31 | The chosen file is the first name containing "resume" and ending with the format. Failing that, for "docx" or "pdf" only, it is the first name ending in ".docx" or ".pdf". Otherwise none is chosen. A chosen file is listed and ends with the format, case-insensitively. The result is `Chosen` |
| Resume.ChosenEndsWithFormat | app/api/resume/route.ts:17-31 | A name found by the primary or the fallback search is in the listing and its lower-cased name ends with the lower-cased format |
| Resume.LastSegment | app/api/resume/route.ts:48 | `split(".").pop()` has no "." in it, ends the name, and is either the whole name or follows its last "." |
| Resume.LastSegmentUnique | app/api/resume/route.ts:48 | The segment after the last "." is the only dot-free suffix that is the whole name or follows a "." |
| Resume.ExtensionOfLowered | app/api/resume/route.ts:48 | Taking the last segment of the lower-cased name gives the same extension as lower-casing the last segment |
| Resume.ExtensionAfterDot | app/api/resume/route.ts:48 | A name whose lower-cased form ends in "." + a dot-free text has that text as its extension |
| Resume.FallbackContentType | app/api/resume/route.ts:23-58 | A file found by the ".pdf" fallback is served as application/pdf and one found by the ".docx" fallback as the Word type |
| Resume.ContentType | app/api/resume/route.ts:49-58 | The type is application/pdf exactly for "pdf", the Word type exactly for "docx", and application/octet-stream exactly for every other extension |
| Resume.DispositionValid | app/api/resume/route.ts:60-63 | The Content-Disposition value is a valid header value exactly when the extension is |
| Resume.ContentTypesValid | app/api/resume/route.ts:49-58 | Every Content-Type the route sets is a valid header value, so setting it never throws |
| Resume.DownloadHeaders | app/api/resume/route.ts:45-63 | The headers are produced exactly when the extension is a valid header value; otherwise a `set` throws. When they are produced, exactly Content-Type and Content-Disposition are set. The type comes from the extension, and the disposition is an attachment named "Daniel_Koryat_Resume." + extension |
| Resume.NotFoundNamesFormat | app/api/resume/route.ts:36 | The 404 message names the requested format in upper case |
| Resume.Get | app/api/resume/route.ts:8-76 | No chosen file gives 404 with the not-found message. A failed listing, a failed read of the chosen file, or an extension that is not a valid header value gives 500 "Failed to download resume. Please try again later." Otherwise the reply is 200 with the chosen file, which is listed and ends in the format, and its two headers |
| SiteTypes.CategoryNameInjective | types/index.ts:3 | Distinct categories have distinct configuration names |
| SkillCategories.CategoryColor | lib/utils.ts:22-31 | A category in the table gets its colour and any other string gets "bg-gray-500". The result is always one of the table's colours |
| SkillCategories.CategoryLabel | lib/utils.ts:33-42 | A category in the table gets its label and any other string is shown as itself. The result is empty only for the empty category |
| SkillCategories.ColorOfEachCategory | lib/utils.ts:22-31 | The colour of each of the six declared categories. "languages" falls back to grey |
| SkillCategories.LabelOfEachCategory | lib/utils.ts:33-42 | The label of each of the six declared categories. "languages" is shown as its raw name |
| Skills.GroupByCategory | components/skills.tsx:18-27 | The loop yields one group per category that occurs, exactly, whose contents are that category's skills in list order. Its key list is the categories in order of first appearance |
| Skills.FirstOfCategory | components/skills.tsx:19-25 | The index of the first skill of a category, or the length when there is none |
| Skills.CategoriesListed | components/skills.tsx:27 | A category is a key exactly when some skill has it |
| Skills.CategoriesDistinct | components/skills.tsx:27 | No key appears twice |
| Skills.CategoriesInFirstAppearanceOrder | components/skills.tsx:27 | Keys are ordered by the index of their category's first skill |
| Skills.FirstInPrefix | components/skills.tsx:19-25 | A category first seen within a prefix is first seen at the same index in the whole list |
| Skills.NoGroupNoSkills | components/skills.tsx:19-25 | A category that is not a key has no skills |
| Skills.NoEmptyGroup | components/skills.tsx:19-25 | Every key's group is non-empty |
| Skills.GroupMembers | components/skills.tsx:19-25 | A skill is in a category's group exactly when it is in the list and has that category |
| Skills.OfCategoryAppend | components/skills.tsx:19-25 | Grouping a concatenation appends the groups of its parts |
| Skills.GroupKeepsOrder | components/skills.tsx:23 | Two skills of one category appear in its group in their list order |
| Skills.GroupSizesStep | components/skills.tsx:19-25 | Adding one skill adds one to the total size of a distinct set of groups exactly when its category is among them |
| Skills.GroupSizesAppend | components/skills.tsx:19-25 | Adding a category to a list of groups adds that group's size |
| Skills.GroupSizesSum | components/skills.tsx:19-27 | The group sizes add up to the number of skills: every skill is in exactly one group |
| Skills.CountNamedAppend | components/skills.tsx:151 | Counting skills by category name is additive over concatenation |
| Skills.CountIsGroupSize | components/skills.tsx:148-184 | The count of skills whose category equals a name is the size of that category's group, and zero for a category with no key |
| Skills.SummaryOf | components/skills.tsx:148-184 | The four "Core Competencies" counts are the sizes of the backend, cloud, AI/ML and frontend groups |
| Skills.YearsLabel | components/skills.tsx:86-87 | The unit is "year" exactly when yearsOfExperience is 1, and "years" otherwise |

## Left out

- Network and process effects are not modelled, and neither is the
  transport. `request.json()`, the environment variables,
  `nodemailer.createTransport`/`sendMail`, `fs.readdir` and `fs.readFile`
  become inputs. The file's bytes are not modelled: a served file stands
  as its name.
- `console.error` logging is left out: it has no effect on any reply.
- Non-string JSON field values are left out. A number or object in a
  contact field, for which `replace` or the pattern test would coerce or
  throw, is not modelled. Fields are absent or strings.
- `new URL(request.url)` is assumed to succeed. The query parameter is an
  input.
- Strings.ToLower: only ASCII letters are mapped. Unicode case mapping in
  `toLowerCase`/`toUpperCase` is not modelled, since it needs the Unicode
  tables.
- Resume.Headers.Set: header names are kept as given. Two things
  `Headers` does are not modelled: case-insensitive matching of names, and
  validation of names. The route only ever sets two distinct, fixed, valid
  names.
- Resume.Headers.Set: leading and trailing whitespace is not trimmed from
  values. The route's values never begin or end with whitespace.
- Skills.YearsLabel: yearsOfExperience is an integer, not a JavaScript
  number. A fractional count such as 1.0 vs 1 is not distinguished. The
  source record type does not declare the field, so it may be absent.
- Skill fields that are only displayed are not modelled: proficiency,
  description and certifications. React rendering, animation and the
  component layout are not modelled either.
- `Object.keys` order is modelled as insertion order. This is exact here,
  because no category name is an integer-like string.
- Lookup of inherited keys such as "constructor" or "toString" in the
  colour and label tables is not modelled. The tables are plain maps.
- The rest of the repository is not part of this model:
  - `formatDate`, `cn` and `getSiteConfig` in lib/utils.ts;
  - the health route;
  - the admin panel;
  - the other page components.
- The contact form's client sends a reCAPTCHA token. The handler never
  reads it, so the model does not either.
