/**
 * The portfolio admin console: a password gate, a form for new projects, and
 * the list of projects it keeps in step with the backend.
 *
 * The pure parts (category labels, form validation, tag parsing, the request
 * payload, the list transformations) are functions; the component's state
 * and its event handlers are the class `AdminConsole`. Each backend call is
 * replaced by its outcome, given as an argument to the handler that made it.
 */
module Admin {
  import opened JsText
  import opened Lists
  import opened ProjectType
  import ApiUrl

  // ---------------------------------------------------------------------
  // Categories

  /** `caption` is the option's `label` (a reserved word in Dafny). */
  datatype CategoryOption = CategoryOption(value: string, caption: string)

  const CategoryOptions: seq<CategoryOption> := [
    CategoryOption("branding", "Branding & Identity"),
    CategoryOption("digital", "Digital Marketing"),
    CategoryOption("social", "Social Media"),
    CategoryOption("campaigns", "Campaign Management"),
    CategoryOption("content", "Content Marketing")
  ]

  /** `i` is the first option whose value is `value`. */
  predicate IsFirstMatch(options: seq<CategoryOption>, value: string, i: int) {
    0 <= i < |options| && options[i].value == value
    && forall j :: 0 <= j < i ==> options[j].value != value
  }

  /** `options.find(item => item.value === value)`, then its label or the value itself. */
  function FindLabel(options: seq<CategoryOption>, value: string): (r: string)
    ensures forall i :: IsFirstMatch(options, value, i) ==> r == options[i].caption
    ensures (forall i :: 0 <= i < |options| ==> options[i].value != value) ==> r == value
  {
    if options == [] then value
    else if options[0].value == value then options[0].caption
    else
      var r := FindLabel(options[1..], value);
      assert forall i :: IsFirstMatch(options, value, i) ==> IsFirstMatch(options[1..], value, i - 1);
      r
  }

  /** `getCategoryLabel(value)` */
  function GetCategoryLabel(value: string): string {
    FindLabel(CategoryOptions, value)
  }

  /** Each known category shows its label; anything else shows as itself. */
  lemma CategoryLabels(value: string)
    ensures forall i :: 0 <= i < |CategoryOptions| && CategoryOptions[i].value == value ==>
              GetCategoryLabel(value) == CategoryOptions[i].caption
    ensures (forall i :: 0 <= i < |CategoryOptions| ==> CategoryOptions[i].value != value) ==>
              GetCategoryLabel(value) == value
  {
    forall i | 0 <= i < |CategoryOptions| && CategoryOptions[i].value == value
      ensures IsFirstMatch(CategoryOptions, value, i)
    {
      assert forall j :: 0 <= j < |CategoryOptions| && j != i ==> CategoryOptions[j].value != CategoryOptions[i].value;
    }
  }

  // ---------------------------------------------------------------------
  // The project form

  datatype ProjectForm = ProjectForm(
    title: string, category: string, description: string, image: string,
    tags: string, link: string, github: string)

  datatype FormField = Title | Category | Description | Image | Tags | Link | Github

  function FieldOf(form: ProjectForm, field: FormField): string {
    match field
    case Title => form.title
    case Category => form.category
    case Description => form.description
    case Image => form.image
    case Tags => form.tags
    case Link => form.link
    case Github => form.github
  }

  /** `{ ...prev, [field]: value }` */
  function WithField(form: ProjectForm, field: FormField, value: string): (r: ProjectForm)
    ensures FieldOf(r, field) == value
    ensures forall other :: other != field ==> FieldOf(r, other) == FieldOf(form, other)
  {
    match field
    case Title => form.(title := value)
    case Category => form.(category := value)
    case Description => form.(description := value)
    case Image => form.(image := value)
    case Tags => form.(tags := value)
    case Link => form.(link := value)
    case Github => form.(github := value)
  }

  /** Setting a field to what it already holds leaves the form as it is. */
  lemma WithFieldUnchanged(form: ProjectForm, field: FormField)
    ensures WithField(form, field, FieldOf(form, field)) == form
  {
  }

  /** `isFormValid`, and the guard at the top of the submit handler. */
  predicate IsFormValid(form: ProjectForm) {
    !IsBlank(form.title) && !IsBlank(form.category) && !IsBlank(form.description) && !IsBlank(form.image)
  }

  /** `createEmptyForm()` */
  function CreateEmptyForm(): (r: ProjectForm)
    ensures forall field :: FieldOf(r, field) == ""
    ensures !IsFormValid(r)
  {
    ProjectForm("", "", "", "", "", "", "")
  }

  /** The form is valid exactly when none of the four required fields trims to nothing. */
  lemma FormValidIff(form: ProjectForm)
    ensures IsFormValid(form) <==>
      Trim(form.title) != "" && Trim(form.category) != ""
      && Trim(form.description) != "" && Trim(form.image) != ""
  {
    BlankIffTrimEmpty(form.title);
    BlankIffTrimEmpty(form.category);
    BlankIffTrimEmpty(form.description);
    BlankIffTrimEmpty(form.image);
  }

  // ---------------------------------------------------------------------
  // The request payload

  function NonEmpty(s: string): bool {
    s != ""
  }

  /** A tag as the console produces it: non-empty, trimmed, comma-free. */
  predicate IsCleanTag(t: string) {
    t != "" && Trim(t) == t && ',' !in t
  }

  /** `raw.split(',').map(tag => tag.trim()).filter(Boolean)` */
  function ParseTags(raw: string): (tags: seq<string>)
    ensures forall k :: 0 <= k < |tags| ==> IsCleanTag(tags[k])
  {
    var pieces := Split(raw, ',');
    var trimmed := Map(pieces, Trim);
    forall k | 0 <= k < |trimmed|
      ensures trimmed[k] == "" || IsCleanTag(trimmed[k])
    {
      TrimAddsNothing(pieces[k], ',');
      TrimIdempotent(pieces[k]);
    }
    assert forall x :: x in trimmed && x != "" ==> IsCleanTag(x);
    Filter(trimmed, NonEmpty)
  }

  /** Clean tags joined with commas parse back to themselves, in order. */
  lemma {:induction false} ParseJoinedTags(tags: seq<string>)
    requires |tags| >= 1
    requires forall k :: 0 <= k < |tags| ==> IsCleanTag(tags[k])
    ensures ParseTags(Join(tags, ',')) == tags
  {
    SplitJoin(tags, ',');
    var trimmed := Map(tags, Trim);
    assert trimmed == tags;
    FilterKeepsAll(tags, NonEmpty);
  }

  /** Tags on either side of a comma parse separately, left ones first. */
  lemma ParseTagsAppend(a: string, b: string)
    ensures ParseTags(a + [','] + b) == ParseTags(a) + ParseTags(b)
  {
    SplitAppend(a, b, ',');
    MapAppend(Split(a, ','), Split(b, ','), Trim);
    FilterAppend(Map(Split(a, ','), Trim), Map(Split(b, ','), Trim), NonEmpty);
  }

  /** A piece without a comma gives its trimmed text as one tag, or no tag when it is blank. */
  lemma ParseTagsOne(s: string)
    requires ',' !in s
    ensures ParseTags(s) == if Trim(s) == "" then [] else [Trim(s)]
  {
    SplitNoSep(s, ',');
    assert Map([s], Trim) == [Trim(s)];
  }

  /** `form.link || '#'`, and the same for `github`. */
  function LinkOrPlaceholder(s: string): (r: string)
    ensures r != ""
    ensures s == "" ==> r == "#"
    ensures s != "" ==> r == s
  {
    if s == "" then "#" else s
  }

  datatype ProjectPayload = ProjectPayload(
    title: string, category: string, description: string, image: string,
    tags: seq<string>, link: string, github: string)

  /** The body of the create request: the form as typed, tags parsed, empty links replaced by `#`. */
  function BuildPayload(form: ProjectForm): (p: ProjectPayload)
    ensures p.title == form.title && p.category == form.category
    ensures p.description == form.description && p.image == form.image
    ensures p.tags == ParseTags(form.tags)
    ensures p.link == (if form.link == "" then "#" else form.link)
    ensures p.github == (if form.github == "" then "#" else form.github)
  {
    ProjectPayload(form.title, form.category, form.description, form.image,
                   ParseTags(form.tags), LinkOrPlaceholder(form.link), LinkOrPlaceholder(form.github))
  }

  // ---------------------------------------------------------------------
  // Messages shown to the user

  const EmptyPasswordMessage: string := "Please enter the admin password."
  const DevUnlockMessage: string := "Admin password not configured. Dashboard unlocked for local development."
  const WrongPasswordMessage: string := "Incorrect password. Please try again."
  const MissingPasswordMessage: string := "Missing admin password. Please log in again."
  const IncompleteFormMessage: string := "Please fill in all required fields (title, category, description, image)."
  const InvalidResponseMessage: string := "Invalid response from server."
  const AddedMessage: string := "Project added successfully."
  const DeletedMessage: string := "Project deleted successfully."
  const MissingUrlMessage: string := "Upload response missing image URL."
  const UploadedMessage: string := "Image uploaded successfully."
  const ReadFailedMessage: string := "Failed to read file."
  const InvalidImageMessage: string := "Invalid image data."

  /** The HTTP status in parentheses, as the failure messages end. */
  function StatusSuffix(status: nat): string {
    " (" + NatToString(status) + ")"
  }

  function LoadFailedMessage(status: nat): string {
    "Failed to load projects" + StatusSuffix(status)
  }

  function AddFailedMessage(status: nat): string {
    "Failed to add project" + StatusSuffix(status)
  }

  function DeleteFailedMessage(status: nat): string {
    "Failed to delete project" + StatusSuffix(status)
  }

  function UploadFailedMessage(status: nat): string {
    "Failed to upload image" + StatusSuffix(status)
  }

  // ---------------------------------------------------------------------
  // Image data and URLs

  /** `result.split(',')[1]`, refused when it is missing or empty. */
  function Base64Part(dataUrl: string): (r: Option<string>)
    ensures r.Some? ==> r.value != "" && ',' !in r.value
  {
    var pieces := Split(dataUrl, ',');
    if |pieces| < 2 || pieces[1] == "" then None else Some(pieces[1])
  }

  /** `i` is the position of the first comma and a non-comma character follows it. */
  predicate FirstCommaBeforeText(dataUrl: string, i: int) {
    0 <= i < |dataUrl| && dataUrl[i] == ',' && ',' !in dataUrl[..i]
    && i + 1 < |dataUrl| && dataUrl[i + 1] != ','
  }

  /**
   * The base64 part is the text between the first comma and the next comma
   * (or the end), when that is non-empty; a data URL without a comma has none,
   * and one whose first comma is followed by a non-comma character has one.
   */
  lemma Base64PartSpec(dataUrl: string)
    ensures Base64Part(dataUrl).Some? ==>
              exists i :: 0 <= i < |dataUrl| && dataUrl[i] == ',' && ',' !in dataUrl[..i]
                && var v := Base64Part(dataUrl).value;
                   i + 1 + |v| <= |dataUrl| && dataUrl[i + 1..i + 1 + |v|] == v
                   && (i + 1 + |v| == |dataUrl| || dataUrl[i + 1 + |v|] == ',')
    ensures ',' !in dataUrl ==> Base64Part(dataUrl).None?
    ensures (exists i :: FirstCommaBeforeText(dataUrl, i)) ==> Base64Part(dataUrl).Some?
  {
    var pieces := Split(dataUrl, ',');
    JoinSplit(dataUrl, ',');
    if |pieces| >= 2 {
      var i := |pieces[0]|;
      var v := pieces[1];
      var tail := Join(pieces[1..], ',');
      assert dataUrl == pieces[0] + [','] + tail;
      assert dataUrl[i] == ',';
      assert dataUrl[..i] == pieces[0];
      if |pieces| == 2 {
        assert tail == v;
      } else {
        assert tail == v + [','] + Join(pieces[2..], ',');
        assert dataUrl[i + 1 + |v|] == ',';
      }
      assert dataUrl[i + 1..i + 1 + |v|] == v;
    } else {
      assert dataUrl == pieces[0];
    }
    forall k | FirstCommaBeforeText(dataUrl, k)
      ensures Base64Part(dataUrl).Some?
    {
      Base64PartPresent(dataUrl, k);
    }
  }

  /** A first comma followed by a non-comma character leaves a non-empty second piece. */
  lemma Base64PartPresent(dataUrl: string, k: int)
    requires FirstCommaBeforeText(dataUrl, k)
    ensures Base64Part(dataUrl).Some?
  {
    var pieces := Split(dataUrl, ',');
    JoinSplit(dataUrl, ',');
    assert dataUrl[k] in dataUrl;
    assert |pieces| >= 2;
    var i := |pieces[0]|;
    var tail := Join(pieces[1..], ',');
    assert dataUrl == pieces[0] + [','] + tail;
    assert dataUrl[..i] == pieces[0];
    assert dataUrl[i] == ',';
    assert forall j :: 0 <= j < i ==> dataUrl[j] == dataUrl[..i][j] && dataUrl[j] != ',';
    assert forall j :: 0 <= j < k ==> dataUrl[j] == dataUrl[..k][j] && dataUrl[j] != ',';
    assert k == i;
    assert tail == dataUrl[k + 1..];
    if |pieces| == 2 {
      assert tail == pieces[1];
    } else {
      assert tail == pieces[1] + [','] + Join(pieces[2..], ',');
    }
  }

  /** How `FileReader` finished. */
  datatype FileRead =
    | DataUrl(result: string)         // `reader.result` is a string
    | NotAString                      // `reader.result` is not a string
    | ReadFailed(error: Option<string>)  // `onerror`, with the reader's error message if any

  datatype ReadResult = ReadOk(base64: string) | ReadError(message: string)

  /** `readFileAsBase64(file)` */
  function ReadFileAsBase64(r: FileRead): (x: ReadResult)
    ensures x.ReadOk? <==> r.DataUrl? && Base64Part(r.result).Some?
    ensures x.ReadOk? ==> x.base64 == Base64Part(r.result).value
    ensures r.NotAString? ==> x == ReadError(ReadFailedMessage)
    ensures r.DataUrl? && Base64Part(r.result).None? ==> x == ReadError(InvalidImageMessage)
    ensures r.ReadFailed? && r.error.Some? ==> x == ReadError(r.error.value)
    ensures r.ReadFailed? && r.error.None? ==> x == ReadError(ReadFailedMessage)
  {
    match r
    case NotAString => ReadError(ReadFailedMessage)
    case DataUrl(s) =>
      (match Base64Part(s)
       case None => ReadError(InvalidImageMessage)
       case Some(b) => ReadOk(b))
    case ReadFailed(e) => ReadError(if e.Some? then e.value else ReadFailedMessage)
  }

  /** `rawUrl.startsWith('http') ? rawUrl : buildApiUrl(rawUrl)` */
  function FinalUrl(apiBase: string, rawUrl: string): (r: string)
    ensures StartsWith(rawUrl, "http") ==> r == rawUrl
    ensures !StartsWith(rawUrl, "http") ==> StartsWith(r, apiBase)
    ensures !StartsWith(rawUrl, "http") ==> r == ApiUrl.BuildApiUrl(apiBase, rawUrl)
  {
    ApiUrl.BuildApiUrlShape(apiBase, rawUrl);
    if StartsWith(rawUrl, "http") then rawUrl else ApiUrl.BuildApiUrl(apiBase, rawUrl)
  }

  /** With the default base, the stored image URL is always absolute (starts with `http`). */
  lemma FinalUrlAbsolute(rawUrl: string)
    ensures StartsWith(FinalUrl(ApiUrl.ResolveBaseUrl(None), rawUrl), "http")
  {
    var base := ApiUrl.ResolveBaseUrl(None);
    var r := FinalUrl(base, rawUrl);
    if !StartsWith(rawUrl, "http") {
      assert base[..4] == "http";
      assert r[..|base|] == base;
      assert r[..4] == base[..4];
    }
  }

  // ---------------------------------------------------------------------
  // The project list

  /** A project as received: `tags` is `None` when the JSON value is not an array. */
  datatype RawProject = RawProject(
    id: int, title: string, category: string, description: string, image: string,
    tags: Option<seq<string>>, link: string, github: string)

  /** `{ ...project, tags: Array.isArray(project.tags) ? project.tags : [] }` */
  function Normalize(p: RawProject): (r: Project)
    ensures r.id == p.id && r.title == p.title && r.category == p.category
    ensures r.description == p.description && r.image == p.image
    ensures r.link == p.link && r.github == p.github
    ensures r.tags == (if p.tags.Some? then p.tags.value else [])
  {
    Project(p.id, p.title, p.category, p.description, p.image,
            if p.tags.Some? then p.tags.value else [], p.link, p.github)
  }

  predicate SortedByIdDesc(s: seq<Project>) {
    forall i, j :: 0 <= i < j < |s| ==> s[i].id >= s[j].id
  }

  predicate UniqueIds(s: seq<Project>) {
    forall i, j :: 0 <= i < j < |s| ==> s[i].id != s[j].id
  }

  function IdIs(id: int): Project -> bool {
    (p: Project) => p.id == id
  }

  function IdIsNot(id: int): Project -> bool {
    (p: Project) => p.id != id
  }

  /** Inserts before the first element whose id is not larger. */
  function InsertById(p: Project, s: seq<Project>): seq<Project> {
    if s == [] || p.id >= s[0].id then [p] + s else [s[0]] + InsertById(p, s[1..])
  }

  /** `[...list].sort((a, b) => b.id - a.id)`: a stable sort by descending id. */
  function SortByIdDesc(s: seq<Project>): seq<Project> {
    if s == [] then [] else InsertById(s[0], SortByIdDesc(s[1..]))
  }

  /** Inserting adds exactly the one element. */
  lemma {:induction false} InsertByIdPermutes(p: Project, s: seq<Project>)
    ensures multiset(InsertById(p, s)) == multiset{p} + multiset(s)
  {
    if s != [] && p.id < s[0].id {
      InsertByIdPermutes(p, s[1..]);
      assert s == [s[0]] + s[1..];
    }
  }

  /** Inserting into a sorted list keeps it sorted. */
  lemma {:induction false} InsertByIdSorted(p: Project, s: seq<Project>)
    requires SortedByIdDesc(s)
    ensures SortedByIdDesc(InsertById(p, s))
  {
    if s != [] && p.id < s[0].id {
      InsertByIdSorted(p, s[1..]);
      InsertByIdPermutes(p, s[1..]);
      var r := InsertById(p, s[1..]);
      forall j | 0 <= j < |r|
        ensures s[0].id >= r[j].id
      {
        assert r[j] in multiset(r);
        assert r[j] == p || r[j] in multiset(s[1..]);
      }
      assert forall j :: 0 < j < |r| + 1 ==> ([s[0]] + r)[j] == r[j - 1];
    }
  }

  /** Inserting keeps the relative order of the elements with any one id. */
  lemma {:induction false} InsertByIdStable(p: Project, s: seq<Project>, id: int)
    ensures Filter(InsertById(p, s), IdIs(id))
            == (if p.id == id then [p] + Filter(s, IdIs(id)) else Filter(s, IdIs(id)))
  {
    if s == [] || p.id >= s[0].id {
      assert ([p] + s)[0] == p && ([p] + s)[1..] == s;
    } else {
      InsertByIdStable(p, s[1..], id);
      var r := [s[0]] + InsertById(p, s[1..]);
      assert r[0] == s[0] && r[1..] == InsertById(p, s[1..]);
    }
  }

  /**
   * The loaded list is sorted by descending id, holds the same projects, and
   * projects sharing an id stay in the order they arrived in.
   */
  lemma {:induction false} SortByIdDescSpec(s: seq<Project>)
    ensures SortedByIdDesc(SortByIdDesc(s))
    ensures multiset(SortByIdDesc(s)) == multiset(s)
    ensures forall id :: Filter(SortByIdDesc(s), IdIs(id)) == Filter(s, IdIs(id))
  {
    if s != [] {
      SortByIdDescSpec(s[1..]);
      InsertByIdSorted(s[0], SortByIdDesc(s[1..]));
      InsertByIdPermutes(s[0], SortByIdDesc(s[1..]));
      assert s == [s[0]] + s[1..];
      forall id
        ensures Filter(SortByIdDesc(s), IdIs(id)) == Filter(s, IdIs(id))
      {
        InsertByIdStable(s[0], SortByIdDesc(s[1..]), id);
      }
    }
  }

  lemma {:induction false} FilterKeepsSorted(s: seq<Project>, keep: Project -> bool)
    requires SortedByIdDesc(s)
    ensures SortedByIdDesc(Filter(s, keep))
  {
    if s != [] {
      FilterKeepsSorted(s[1..], keep);
    }
  }

  lemma {:induction false} FilterKeepsUnique(s: seq<Project>, keep: Project -> bool)
    requires UniqueIds(s)
    ensures UniqueIds(Filter(s, keep))
  {
    if s != [] {
      FilterKeepsUnique(s[1..], keep);
      var rest := Filter(s[1..], keep);
      if keep(s[0]) {
        forall j | 0 <= j < |rest|
          ensures s[0].id != rest[j].id
        {
          var m :| 0 <= m < |s[1..]| && s[1..][m] == rest[j];
          assert s[m + 1] == rest[j];
        }
      }
    }
  }

  /** The list after a create: the new project first, then the old list without its id. */
  function PrependProject(p: Project, list: seq<Project>): seq<Project> {
    [p] + Filter(list, IdIsNot(p.id))
  }

  /**
   * After a create the new project comes first and its id occurs nowhere
   * else; behind it come the other old projects, as a delete of that id
   * would leave them, so in their old relative order (`RemoveProjectSpec`).
   */
  lemma PrependProjectContents(p: Project, list: seq<Project>)
    ensures var r := PrependProject(p, list);
            r[0] == p && (forall k :: 1 <= k < |r| ==> r[k].id != p.id && r[k] in list)
            && (forall k :: 0 <= k < |list| && list[k].id != p.id ==> list[k] in r)
    ensures PrependProject(p, list)[1..] == RemoveProject(p.id, list)
  {
    var r := PrependProject(p, list);
    assert forall k :: 1 <= k < |r| ==> r[k] == Filter(list, IdIsNot(p.id))[k - 1];
  }

  /** A create keeps the ids unique. */
  lemma PrependProjectKeepsUnique(p: Project, list: seq<Project>)
    requires UniqueIds(list)
    ensures UniqueIds(PrependProject(p, list))
  {
    FilterKeepsUnique(list, IdIsNot(p.id));
    PrependProjectContents(p, list);
  }

  lemma ConsSorted(p: Project, rest: seq<Project>)
    requires SortedByIdDesc(rest)
    requires forall k :: 0 <= k < |rest| ==> rest[k].id <= p.id
    ensures SortedByIdDesc([p] + rest)
  {
    assert forall k :: 1 <= k < |rest| + 1 ==> ([p] + rest)[k] == rest[k - 1];
  }

  /** A create keeps the list sorted when the new id is above every old one. */
  lemma PrependProjectKeepsSorted(p: Project, list: seq<Project>)
    requires SortedByIdDesc(list)
    requires forall k :: 0 <= k < |list| ==> list[k].id < p.id
    ensures SortedByIdDesc(PrependProject(p, list))
  {
    var rest := Filter(list, IdIsNot(p.id));
    FilterKeepsSorted(list, IdIsNot(p.id));
    forall k | 0 <= k < |rest|
      ensures rest[k].id <= p.id
    {
      var m :| 0 <= m < |list| && list[m] == rest[k];
    }
    ConsSorted(p, rest);
  }

  /** The list after a delete: every project with that id removed. */
  function RemoveProject(id: int, list: seq<Project>): seq<Project> {
    Filter(list, IdIsNot(id))
  }

  /**
   * After a delete no project has the id, every other project is still
   * there in its old relative order, and sortedness and unique ids survive.
   */
  lemma RemoveProjectSpec(id: int, list: seq<Project>)
    ensures forall k :: 0 <= k < |RemoveProject(id, list)| ==>
              RemoveProject(id, list)[k].id != id && RemoveProject(id, list)[k] in list
    ensures forall k :: 0 <= k < |list| && list[k].id != id ==> list[k] in RemoveProject(id, list)
    ensures forall a, b :: a + b == list ==> RemoveProject(id, list) == RemoveProject(id, a) + RemoveProject(id, b)
    ensures SortedByIdDesc(list) ==> SortedByIdDesc(RemoveProject(id, list))
    ensures UniqueIds(list) ==> UniqueIds(RemoveProject(id, list))
  {
    forall a, b | a + b == list
      ensures RemoveProject(id, list) == RemoveProject(id, a) + RemoveProject(id, b)
    {
      FilterAppend(a, b, IdIsNot(id));
    }
    if SortedByIdDesc(list) {
      FilterKeepsSorted(list, IdIsNot(id));
    }
    if UniqueIds(list) {
      FilterKeepsUnique(list, IdIsNot(id));
    }
  }

  // ---------------------------------------------------------------------
  // Logging in

  datatype LoginOutcome = Rejected(error: string) | Unlocked(notice: string)

  /** The decision `handleLogin` makes from the typed password and `VITE_ADMIN_PASSWORD`. */
  function LoginDecision(password: string, expected: Option<string>): LoginOutcome {
    if IsBlank(password) then Rejected(EmptyPasswordMessage)
    else if !Truthy(expected) then
      Unlocked(DevUnlockMessage)
    else if password == expected.value then Unlocked("")
    else Rejected(WrongPasswordMessage)
  }

  /**
   * The console unlocks exactly when the typed password is not blank and
   * either no password is configured or the typed one equals it exactly:
   * surrounding whitespace is not forgiven.
   */
  lemma LoginUnlocksExactly(password: string, expected: Option<string>)
    ensures LoginDecision(password, expected).Unlocked? <==>
              Trim(password) != "" && (!Truthy(expected) || password == expected.value)
    ensures Truthy(expected) && LoginDecision(password, expected).Unlocked? ==> password == expected.value
  {
    BlankIffTrimEmpty(password);
  }

  // ---------------------------------------------------------------------
  // Backend outcomes

  datatype LoadResult =
    | Loaded(data: seq<RawProject>)     // 2xx with a JSON array
    | LoadHttpError(status: nat)        // a non-2xx status
    | LoadThrown(message: string)       // the request or the JSON parse threw

  /** A create response body: its `error` field, and the project when `id` is a number. */
  datatype CreateBody = CreateBody(error: Option<string>, project: Option<RawProject>)

  datatype CreateResult =
    | CreateReply(ok: bool, status: nat, body: Option<CreateBody>)  // body `None`: not JSON
    | CreateThrown(message: string)

  datatype DeleteBody = DeleteBody(error: Option<string>)

  datatype DeleteResult =
    | DeleteReply(ok: bool, status: nat, body: Option<DeleteBody>)
    | DeleteThrown(message: string)

  datatype UploadBody = UploadBody(url: Option<string>, error: Option<string>)

  datatype UploadResult =
    | UploadReply(ok: bool, status: nat, body: Option<UploadBody>)
    | UploadThrown(message: string)

  /** The project a create call produced, if it succeeded. */
  function CreatedProject(r: CreateResult): Option<RawProject> {
    match r
    case CreateThrown(_) => None
    case CreateReply(ok, _, body) =>
      if body.None? || !ok then None else body.value.project
  }

  /** The error message a failed create call leaves. */
  function CreateError(r: CreateResult): string {
    match r
    case CreateThrown(m) => m
    case CreateReply(ok, status, body) =>
      if body.None? then AddFailedMessage(status)
      else if !ok then OrElse(body.value.error, AddFailedMessage(status))
      else InvalidResponseMessage
  }

  predicate DeleteSucceeded(r: DeleteResult) {
    r.DeleteReply? && r.ok && !(r.body.Some? && Truthy(r.body.value.error))
  }

  /** The error message a failed delete call leaves. */
  function DeleteError(r: DeleteResult): string {
    match r
    case DeleteThrown(m) => m
    case DeleteReply(_, status, body) =>
      OrElse(if body.Some? then body.value.error else None, DeleteFailedMessage(status))
  }

  /** The uploaded image's URL as the server gave it, if the upload succeeded. */
  function UploadedUrl(r: UploadResult): Option<string> {
    if r.UploadReply? && r.ok && r.body.Some? && Truthy(r.body.value.url) then r.body.value.url else None
  }

  /** The error message a failed upload leaves. */
  function UploadError(r: UploadResult): string {
    match r
    case UploadThrown(m) => m
    case UploadReply(ok, status, body) =>
      if !ok || body.None? then
        OrElse(if body.Some? then body.value.error else None, UploadFailedMessage(status))
      else MissingUrlMessage
  }

  // ---------------------------------------------------------------------
  // The component

  /**
   * The admin page's state. `expectedPassword` is `VITE_ADMIN_PASSWORD` and
   * `apiBase` the resolved `API_BASE_URL`, both fixed at build time.
   */
  class AdminConsole {
    const expectedPassword: Option<string>
    const apiBase: string
    var password: string
    var authed: bool
    var authError: string
    var statusMessage: string
    var errorMessage: string
    var projects: seq<Project>
    var form: ProjectForm

    constructor (expectedPassword: Option<string>, apiBaseEnv: Option<string>)
      ensures this.expectedPassword == expectedPassword
      ensures apiBase == ApiUrl.ResolveBaseUrl(apiBaseEnv)
      ensures password == "" && !authed && authError == "" && statusMessage == "" && errorMessage == ""
      ensures projects == [] && form == CreateEmptyForm()
    {
      this.expectedPassword := expectedPassword;
      apiBase := ApiUrl.ResolveBaseUrl(apiBaseEnv);
      password := "";
      authed := false;
      authError := "";
      statusMessage := "";
      errorMessage := "";
      projects := [];
      form := CreateEmptyForm();
    }

    /** The password input's `onChange`. */
    method SetPassword(value: string)
      modifies this
      ensures password == value
      ensures authed == old(authed) && authError == old(authError)
      ensures statusMessage == old(statusMessage) && errorMessage == old(errorMessage)
      ensures projects == old(projects) && form == old(form)
    {
      password := value;
    }

    /** `handleLogin` */
    method HandleLogin()
      modifies this
      ensures password == old(password) && projects == old(projects) && form == old(form)
      ensures errorMessage == ""
      ensures match LoginDecision(password, expectedPassword)
              case Rejected(e) => authError == e && statusMessage == "" && authed == old(authed)
              case Unlocked(n) => authError == "" && statusMessage == n && authed
    {
      var blank := IsBlank(password);
      authError := "";
      statusMessage := "";
      errorMessage := "";
      if blank {
        authError := EmptyPasswordMessage;
        return;
      }
      if !Truthy(expectedPassword) {
        statusMessage := DevUnlockMessage;
        authed := true;
        return;
      }
      if password == expectedPassword.value {
        authed := true;
        return;
      }
      authError := WrongPasswordMessage;
    }

    /** `handleFieldChange(field)` applied to an input's new value. */
    method HandleFieldChange(field: FormField, value: string)
      modifies this
      ensures form == WithField(old(form), field, value)
      ensures password == old(password) && authed == old(authed) && authError == old(authError)
      ensures statusMessage == old(statusMessage) && errorMessage == old(errorMessage)
      ensures projects == old(projects)
    {
      form := WithField(form, field, value);
    }

    /** `loadProjects`, given the outcome of `GET /api/projects`. */
    method LoadProjects(result: LoadResult)
      modifies this
      ensures result.Loaded? ==> projects == SortByIdDesc(Map(result.data, Normalize))
      ensures !result.Loaded? ==> projects == old(projects)
      ensures errorMessage == (match result
                               case Loaded(_) => old(errorMessage)
                               case LoadHttpError(status) => LoadFailedMessage(status)
                               case LoadThrown(m) => m)
      ensures password == old(password) && authed == old(authed) && authError == old(authError)
      ensures statusMessage == old(statusMessage) && form == old(form)
    {
      match result
      case Loaded(data) =>
        projects := SortByIdDesc(Map(data, Normalize));
      case LoadHttpError(status) =>
        errorMessage := LoadFailedMessage(status);
      case LoadThrown(m) =>
        errorMessage := m;
    }

    /**
     * `handleSubmitProject`, given the outcome of `POST /api/projects`.
     * Returns the payload it sent, if it sent one.
     */
    method HandleSubmitProject(result: CreateResult) returns (request: Option<ProjectPayload>)
      modifies this
      ensures request.Some? <==> IsFormValid(old(form)) && !IsBlank(password)
      ensures request.Some? ==> request.value == BuildPayload(old(form))
      ensures !IsFormValid(old(form)) ==>
                errorMessage == IncompleteFormMessage
      ensures IsFormValid(old(form)) && IsBlank(password) ==> errorMessage == MissingPasswordMessage
      ensures request.Some? && CreatedProject(result).Some? ==>
                projects == PrependProject(Normalize(CreatedProject(result).value), old(projects))
                && form == CreateEmptyForm()
                && statusMessage == AddedMessage && errorMessage == ""
      ensures request.Some? && CreatedProject(result).None? ==>
                projects == old(projects) && form == old(form)
                && statusMessage == "" && errorMessage == CreateError(result)
      ensures request.None? ==> projects == old(projects) && form == old(form) && statusMessage == ""
      ensures password == old(password) && authed == old(authed) && authError == old(authError)
    {
      var valid, blank := IsFormValid(form), IsBlank(password);
      statusMessage := "";
      errorMessage := "";
      request := None;
      if !valid {
        errorMessage := IncompleteFormMessage;
        return;
      }
      if blank {
        errorMessage := MissingPasswordMessage;
        return;
      }
      request := Some(BuildPayload(form));
      ApplyCreateResult(result);
    }

    /** The part of `handleSubmitProject` after the request was sent. */
    method ApplyCreateResult(result: CreateResult)
      modifies this
      ensures CreatedProject(result).Some? ==>
                projects == PrependProject(Normalize(CreatedProject(result).value), old(projects))
                && form == CreateEmptyForm()
                && statusMessage == AddedMessage && errorMessage == old(errorMessage)
      ensures CreatedProject(result).None? ==>
                projects == old(projects) && form == old(form)
                && statusMessage == old(statusMessage) && errorMessage == CreateError(result)
      ensures password == old(password) && authed == old(authed) && authError == old(authError)
    {
      match result {
        case CreateThrown(m) =>
          errorMessage := m;
        case CreateReply(ok, status, body) =>
          if body.None? {
            errorMessage := AddFailedMessage(status);
          } else if !ok {
            errorMessage := OrElse(body.value.error, AddFailedMessage(status));
          } else if body.value.project.None? {
            errorMessage := InvalidResponseMessage;
          } else {
            var project := Normalize(body.value.project.value);
            projects := PrependProject(project, projects);
            statusMessage := AddedMessage;
            form := CreateEmptyForm();
          }
      }
    }

    /**
     * `handleDeleteProject(projectId)`, given the answer to the confirmation
     * dialog and the outcome of `DELETE /api/projects/:id`. Returns whether
     * the request was sent.
     */
    method HandleDeleteProject(projectId: int, confirmed: bool, result: DeleteResult) returns (requested: bool)
      modifies this
      ensures !confirmed ==> statusMessage == old(statusMessage) && errorMessage == old(errorMessage)
      ensures requested <==> confirmed && !IsBlank(password)
      ensures confirmed && IsBlank(password) ==> statusMessage == "" && errorMessage == MissingPasswordMessage
      ensures requested && DeleteSucceeded(result) ==>
                projects == RemoveProject(projectId, old(projects))
                && statusMessage == DeletedMessage && errorMessage == ""
      ensures requested && !DeleteSucceeded(result) ==>
                projects == old(projects) && statusMessage == "" && errorMessage == DeleteError(result)
      ensures !requested ==> projects == old(projects)
      ensures password == old(password) && authed == old(authed) && authError == old(authError)
      ensures form == old(form)
    {
      requested := false;
      var blank := IsBlank(password);
      if !confirmed {
        return;
      }
      statusMessage := "";
      errorMessage := "";
      if blank {
        errorMessage := MissingPasswordMessage;
        return;
      }
      requested := true;
      ApplyDeleteResult(projectId, result);
    }

    /** The part of `handleDeleteProject` after the request was sent. */
    method ApplyDeleteResult(projectId: int, result: DeleteResult)
      modifies this
      ensures DeleteSucceeded(result) ==>
                projects == RemoveProject(projectId, old(projects))
                && statusMessage == DeletedMessage && errorMessage == old(errorMessage)
      ensures !DeleteSucceeded(result) ==>
                projects == old(projects) && statusMessage == old(statusMessage) && errorMessage == DeleteError(result)
      ensures password == old(password) && authed == old(authed) && authError == old(authError)
      ensures form == old(form)
    {
      match result {
        case DeleteThrown(m) =>
          errorMessage := m;
        case DeleteReply(ok, status, body) =>
          if !ok || (body.Some? && Truthy(body.value.error)) {
            errorMessage := DeleteError(result);
          } else {
            projects := RemoveProject(projectId, projects);
            statusMessage := DeletedMessage;
          }
      }
    }

    /**
     * `handleImageUpload`, given how reading the chosen file ended (`None`
     * when no file was chosen) and the outcome of `POST /api/uploads`.
     * Returns the base64 data it uploaded, if it sent any.
     */
    method HandleImageUpload(file: Option<FileRead>, result: UploadResult) returns (uploaded: Option<string>)
      modifies this
      ensures file.None? ==> statusMessage == old(statusMessage) && errorMessage == old(errorMessage)
      ensures file.Some? && IsBlank(password) ==>
                statusMessage == old(statusMessage) && errorMessage == MissingPasswordMessage
      ensures uploaded.Some? <==> file.Some? && !IsBlank(password) && ReadFileAsBase64(file.value).ReadOk?
      ensures uploaded.Some? ==> uploaded.value == ReadFileAsBase64(file.value).base64
      ensures file.Some? && !IsBlank(password) && ReadFileAsBase64(file.value).ReadError? ==>
                statusMessage == "" && errorMessage == ReadFileAsBase64(file.value).message
      ensures uploaded.Some? && UploadedUrl(result).Some? ==>
                form == old(form).(image := FinalUrl(apiBase, UploadedUrl(result).value))
                && statusMessage == UploadedMessage && errorMessage == ""
      ensures uploaded.Some? && UploadedUrl(result).None? ==>
                form == old(form) && statusMessage == "" && errorMessage == UploadError(result)
      ensures uploaded.None? ==> form == old(form)
      ensures password == old(password) && authed == old(authed) && authError == old(authError)
      ensures projects == old(projects)
    {
      uploaded := None;
      var blank := IsBlank(password);
      if file.None? {
        return;
      }
      if blank {
        errorMessage := MissingPasswordMessage;
        return;
      }
      statusMessage := "";
      errorMessage := "";
      var read := ReadFileAsBase64(file.value);
      if read.ReadError? {
        errorMessage := read.message;
        return;
      }
      uploaded := Some(read.base64);
      ApplyUploadResult(result);
    }

    /** The part of `handleImageUpload` after the upload request was sent. */
    method ApplyUploadResult(result: UploadResult)
      modifies this
      ensures UploadedUrl(result).Some? ==>
                form == old(form).(image := FinalUrl(apiBase, UploadedUrl(result).value))
                && statusMessage == UploadedMessage && errorMessage == old(errorMessage)
      ensures UploadedUrl(result).None? ==>
                form == old(form) && statusMessage == old(statusMessage) && errorMessage == UploadError(result)
      ensures password == old(password) && authed == old(authed) && authError == old(authError)
      ensures projects == old(projects)
    {
      match result {
        case UploadThrown(m) =>
          errorMessage := m;
        case UploadReply(ok, status, body) =>
          if !ok || body.None? {
            errorMessage := UploadError(result);
          } else {
            var rawUrl := OrElse(body.value.url, "");
            if rawUrl == "" {
              errorMessage := MissingUrlMessage;
            } else {
              form := form.(image := FinalUrl(apiBase, rawUrl));
              statusMessage := UploadedMessage;
            }
          }
      }
    }
  }
}
