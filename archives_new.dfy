/**
 * The "Create Archive" form at /archives/new: a form object updated one field
 * at a time by its inputs and its two visibility radios, and a submit handler
 * that builds a draft archive record (id from the clock, parsed funding goal,
 * comma-separated tags) and navigates to the new archive's page.
 */
module ArchivesNew {
  import opened JsText

  /** A form field's value: the text of an input, or the boolean of a checkbox or radio. */
  datatype FormValue = Text(text: string) | Flag(flag: bool)

  /** The parts of a change event the handler reads: `name`, `value`, `type` and `checked`. */
  datatype ChangeEvent = ChangeEvent(name: string, value: string, inputType: string, checked: bool)

  /** The form object the page starts with. */
  function InitialForm(): map<string, FormValue> {
    map["title" := Text(""), "description" := Text(""), "location" := Text(""), "category" := Text(""),
        "fundingGoal" := Text(""), "tags" := Text(""), "isPublic" := Flag(true)]
  }

  predicate HasText(form: map<string, FormValue>, name: string) {
    name in form && form[name].Text?
  }

  /** The six text fields hold text and `isPublic` holds a boolean. */
  predicate WellFormed(form: map<string, FormValue>) {
    HasText(form, "title") && HasText(form, "description") && HasText(form, "location")
    && HasText(form, "category") && HasText(form, "fundingGoal") && HasText(form, "tags")
    && "isPublic" in form && form["isPublic"].Flag?
  }

  /** The events the page's own inputs send: one of the six named text controls, none a checkbox. */
  predicate FromPageInput(e: ChangeEvent) {
    e.name in {"title", "description", "location", "category", "fundingGoal", "tags"} && e.inputType != "checkbox"
  }

  /** What `handleInputChange` stores: `checked` for a checkbox, `value` for anything else. */
  function StoredValue(e: ChangeEvent): FormValue {
    if e.inputType == "checkbox" then Flag(e.checked) else Text(e.value)
  }

  lemma InitialFormWellFormed()
    ensures WellFormed(InitialForm())
  {
  }

  /** `Number.parseInt(fundingGoal) || 0`: NaN (and zero) give 0. */
  function FundingGoal(s: string): int {
    match ParseInt(s)
    case None => 0
    case Some(v) => v
  }

  /** An empty goal, or one that does not start with a sign or digit, becomes 0. */
  lemma FundingGoalDefault(s: string)
    requires var t := TrimStart(s); t == [] || (!IsDecimalDigit(t[0]) && t[0] != '-' && t[0] != '+')
    ensures FundingGoal(s) == 0
  {
    ParseIntOfNonNumeric(s);
  }

  /** A goal typed as a plain decimal number is read exactly. */
  lemma FundingGoalOfDecimal(n: nat)
    ensures FundingGoal(NatToString(n)) == n
  {
    ParseIntOfDecimal(n);
  }

  /** A tag as the form keeps it: non-empty, trimmed, with no comma inside. */
  predicate CleanTag(t: string) {
    t != [] && NoEdgeWhitespace(t) && ',' !in t
  }

  /** `.map(f)` on a list of strings. */
  function Map(f: string -> string, xs: seq<string>): (r: seq<string>)
    ensures |r| == |xs|
  {
    if xs == [] then [] else [f(xs[0])] + Map(f, xs[1..])
  }

  /** Each element of `Map` is `f` of the element at the same index. */
  lemma {:induction false} MapAt(f: string -> string, xs: seq<string>, k: nat)
    requires k < |xs|
    ensures Map(f, xs)[k] == f(xs[k])
  {
    if k > 0 {
      MapAt(f, xs[1..], k - 1);
    }
  }

  /** `Map` distributes over concatenation. */
  lemma {:induction false} MapAppend(f: string -> string, p: seq<string>, q: seq<string>)
    ensures Map(f, p + q) == Map(f, p) + Map(f, q)
  {
    if p == [] {
      assert p + q == q;
    } else {
      var x, rest := p[0], p[1..];
      assert p + q == [x] + (rest + q);
      assert Map(f, p + q) == [f(x)] + Map(f, rest + q);
      MapAppend(f, rest, q);
      assert Map(f, p) == [f(x)] + Map(f, rest);
    }
  }

  /** `.map(tag => tag.trim())`. */
  function TrimAll(parts: seq<string>): seq<string> {
    Map(Trim, parts)
  }

  /** Each piece of `TrimAll` is the trim of the piece at the same index. */
  lemma TrimAllAt(parts: seq<string>, k: nat)
    requires k < |parts|
    ensures TrimAll(parts)[k] == Trim(parts[k])
  {
    MapAt(Trim, parts, k);
  }

  /** `Map` leaves alone a list whose every element `f` fixes. */
  lemma {:induction false} MapFixed(f: string -> string, xs: seq<string>)
    requires forall k :: 0 <= k < |xs| ==> f(xs[k]) == xs[k]
    ensures Map(f, xs) == xs
  {
    if xs != [] {
      var x, rest := xs[0], xs[1..];
      assert xs == [x] + rest;
      MapFixed(f, rest);
      assert Map(f, xs) == [f(x)] + Map(f, rest);
    }
  }

  /** When `f` empties every element, filtering out the empty strings leaves nothing. */
  lemma {:induction false} MapToEmpties(f: string -> string, xs: seq<string>)
    requires forall k :: 0 <= k < |xs| ==> f(xs[k]) == []
    ensures NonEmpty(Map(f, xs)) == []
  {
    if xs != [] {
      var x, rest := xs[0], xs[1..];
      MapToEmpties(f, rest);
      assert Map(f, xs) == [f(x)] + Map(f, rest);
      assert Map(f, xs)[1..] == Map(f, rest);
    }
  }

  /** Pieces that are already trimmed are left alone. */
  lemma TrimAllOfTrimmed(parts: seq<string>)
    requires forall k :: 0 <= k < |parts| ==> NoEdgeWhitespace(parts[k])
    ensures TrimAll(parts) == parts
  {
    forall k | 0 <= k < |parts|
      ensures Trim(parts[k]) == parts[k]
    {
      TrimOfTrimmed(parts[k]);
    }
    MapFixed(Trim, parts);
  }

  /** Pieces made only of whitespace all trim to nothing, and so are all dropped. */
  lemma TrimAllOfBlanks(parts: seq<string>)
    requires forall k :: 0 <= k < |parts| ==> AllWhitespace(parts[k])
    ensures NonEmpty(TrimAll(parts)) == []
  {
    forall k | 0 <= k < |parts|
      ensures Trim(parts[k]) == []
    {
      TrimOfWhitespace(parts[k]);
    }
    MapToEmpties(Trim, parts);
  }

  /** `.filter(Boolean)` on strings: drop the empty ones, keep the order. */
  function NonEmpty(xs: seq<string>): (r: seq<string>)
    ensures |r| <= |xs|
    ensures forall k :: 0 <= k < |r| ==> r[k] != [] && r[k] in xs
  {
    if xs == [] then [] else (if xs[0] != [] then [xs[0]] else []) + NonEmpty(xs[1..])
  }

  /** Trimming only removes characters, so a character absent before is absent after. */
  lemma TrimKeepsAbsent(s: string, c: char)
    requires c !in s
    ensures c !in Trim(s)
  {
    var r := Trim(s);
    var i, j :| 0 <= i <= j <= |s| && r == s[i..j] && AllWhitespace(s[..i]) && AllWhitespace(s[j..]);
  }

  /** The tags field split on commas, trimmed, empties dropped. */
  function ParseTags(s: string): (tags: seq<string>)
    ensures forall k :: 0 <= k < |tags| ==> CleanTag(tags[k])
    ensures |tags| <= Count(s, ',') + 1
  {
    TrimmedPiecesClean(s);
    NonEmpty(TrimAll(Split(s, ',')))
  }

  /** After trimming, no piece of the split has whitespace at an end or a comma inside. */
  lemma TrimmedPiecesClean(s: string)
    ensures forall k :: 0 <= k < |TrimAll(Split(s, ','))| ==>
              NoEdgeWhitespace(TrimAll(Split(s, ','))[k]) && ',' !in TrimAll(Split(s, ','))[k]
  {
    var parts := Split(s, ',');
    forall k | 0 <= k < |parts|
      ensures NoEdgeWhitespace(TrimAll(parts)[k]) && ',' !in TrimAll(parts)[k]
    {
      TrimAllAt(parts, k);
      TrimKeepsAbsent(parts[k], ',');
    }
  }

  lemma {:induction false} NonEmptyAppend(a: seq<string>, b: seq<string>)
    ensures NonEmpty(a + b) == NonEmpty(a) + NonEmpty(b)
  {
    if a != [] {
      NonEmptyAppend(a[1..], b);
      assert (a + b)[1..] == a[1..] + b;
    } else {
      assert a + b == b;
    }
  }

  lemma {:induction false} NonEmptyOfEmpties(xs: seq<string>)
    requires forall k :: 0 <= k < |xs| ==> xs[k] == []
    ensures NonEmpty(xs) == []
  {
    if xs != [] {
      NonEmptyOfEmpties(xs[1..]);
    }
  }

  lemma {:induction false} NonEmptyOfNonEmpties(xs: seq<string>)
    requires forall k :: 0 <= k < |xs| ==> xs[k] != []
    ensures NonEmpty(xs) == xs
  {
    if xs != [] {
      NonEmptyOfNonEmpties(xs[1..]);
      assert xs == [xs[0]] + xs[1..];
    }
  }

  /**
   * Tags keep the left-to-right order of the comma-separated segments: the
   * tags of `a,b` are the tags of `a` followed by the tags of `b`.
   */
  lemma ParseTagsAppend(a: string, b: string)
    ensures ParseTags(a + [','] + b) == ParseTags(a) + ParseTags(b)
  {
    SplitAppend(a, b, ',');
    var pa, pb := Split(a, ','), Split(b, ',');
    MapAppend(Trim, pa, pb);
    NonEmptyAppend(TrimAll(pa), TrimAll(pb));
    ParseTagsUnfold(a + [','] + b);
    ParseTagsUnfold(a);
    ParseTagsUnfold(b);
  }

  /** The three stages of `ParseTags`, named. */
  lemma ParseTagsUnfold(s: string)
    ensures ParseTags(s) == NonEmpty(TrimAll(Split(s, ',')))
  {
  }

  /** Every character of every segment of a split comes from the string split. */
  lemma {:induction false} SplitPiecesFromSource(s: string, sep: char)
    ensures forall k, j :: 0 <= k < |Split(s, sep)| && 0 <= j < |Split(s, sep)[k]| ==> Split(s, sep)[k][j] in s
  {
    if s != [] {
      SplitPiecesFromSource(s[1..], sep);
      SplitCons(s[0], s[1..], sep);
      assert s == [s[0]] + s[1..];
    }
  }

  /** A tags string made only of whitespace and commas gives no tags. */
  lemma BlankTags(s: string)
    requires forall k :: 0 <= k < |s| ==> IsWhitespace(s[k]) || s[k] == ','
    ensures ParseTags(s) == []
  {
    var parts := Split(s, ',');
    SplitPiecesFromSource(s, ',');
    forall k | 0 <= k < |parts|
      ensures AllWhitespace(parts[k])
    {
      forall j | 0 <= j < |parts[k]|
        ensures IsWhitespace(parts[k][j])
      {
        assert parts[k][j] in s;
        assert parts[k][j] != ',';
      }
    }
    TrimAllOfBlanks(parts);
    ParseTagsUnfold(s);
  }

  /** Clean tags joined with commas parse back to the same list. */
  lemma ParseTagsOfJoin(tags: seq<string>)
    requires forall k :: 0 <= k < |tags| ==> CleanTag(tags[k])
    ensures ParseTags(Join(tags, ',')) == tags
  {
    if tags == [] {
      BlankTags([]);
    } else {
      ParseTagsUnfold(Join(tags, ','));
      SplitJoin(tags, ',');
      TrimAllOfTrimmed(tags);
      NonEmptyOfNonEmpties(tags);
    }
  }

  /** Parsing is idempotent: re-joining parsed tags and parsing again changes nothing. */
  lemma ParseTagsIdempotent(s: string)
    ensures ParseTags(Join(ParseTags(s), ',')) == ParseTags(s)
  {
    ParseTagsOfJoin(ParseTags(s));
  }

  /** The record `handleSubmit` builds. */
  datatype DraftArchive = DraftArchive(
    id: string, title: string, description: string, location: string, category: string,
    fundingGoal: int, fundingRaised: int, tags: seq<string>,
    steward: string, stewardAvatar: string, coverImage: string, created: string)

  const IdPrefix := "arch_"

  function TextOf(form: map<string, FormValue>, name: string): string
    requires HasText(form, name)
  {
    form[name].text
  }

  /**
   * The draft built from the form. `now` is `Date.now()`; `isoNow` is
   * `new Date().toISOString()`, of which the date part before "T" is kept.
   */
  function BuildArchive(form: map<string, FormValue>, now: nat, isoNow: string): (a: DraftArchive)
    requires WellFormed(form)
    ensures a.id == IdPrefix + NatToString(now)
    ensures StartsWith(a.id, IdPrefix) && ParseInt(a.id[|IdPrefix|..]) == Some(now)
    ensures a.title == TextOf(form, "title") && a.description == TextOf(form, "description")
    ensures a.location == TextOf(form, "location") && a.category == TextOf(form, "category")
    ensures a.fundingRaised == 0
    ensures a.steward == "Current User" && a.stewardAvatar == "/placeholder.svg?height=40&width=40"
    ensures a.coverImage == "/placeholder.svg?height=300&width=400"
    ensures a.fundingGoal == FundingGoal(TextOf(form, "fundingGoal"))
    ensures a.tags == ParseTags(TextOf(form, "tags"))
    ensures forall k :: 0 <= k < |a.tags| ==> CleanTag(a.tags[k])
    ensures 'T' !in a.created
    ensures a.created == isoNow || StartsWith(isoNow, a.created + "T")
  {
    var id := IdPrefix + NatToString(now);
    assert id[|IdPrefix|..] == NatToString(now);
    ParseIntOfDecimal(now);
    var created := Split(isoNow, 'T')[0];
    JoinSplit(isoNow, 'T');
    JoinHead(Split(isoNow, 'T'), 'T');
    DraftArchive(
      id, TextOf(form, "title"), TextOf(form, "description"), TextOf(form, "location"), TextOf(form, "category"),
      FundingGoal(TextOf(form, "fundingGoal")), 0, ParseTags(TextOf(form, "tags")),
      "Current User", "/placeholder.svg?height=40&width=40", "/placeholder.svg?height=300&width=400", created)
  }

  /** A join is its only part, or starts with its first part followed by the separator. */
  lemma JoinHead(parts: seq<string>, sep: char)
    requires |parts| >= 1
    ensures |parts| == 1 ==> Join(parts, sep) == parts[0]
    ensures |parts| > 1 ==> StartsWith(Join(parts, sep), parts[0] + [sep])
  {
    if |parts| > 1 {
      assert Join(parts, sep) == (parts[0] + [sep]) + Join(parts[1..], sep);
    }
  }

  /** Where `handleSubmit` navigates: the new archive's page. */
  function ArchivePath(a: DraftArchive): (p: string)
    ensures StartsWith(p, "/archive/") && p[|"/archive/"|..] == a.id
  {
    "/archive/" + a.id
  }

  /** The target always names an "arch_" id under /archive/. */
  lemma ArchivePathShape(a: DraftArchive)
    requires StartsWith(a.id, IdPrefix)
    ensures StartsWith(ArchivePath(a), "/archive/arch_")
  {
    PrefixExtends("/archive/", a.id, IdPrefix);
    assert "/archive/" + IdPrefix == "/archive/arch_";
  }

  lemma PrefixExtends(p: string, s: string, q: string)
    requires StartsWith(s, q)
    ensures StartsWith(p + s, p + q)
  {
    assert (p + s)[..|p + q|] == p + s[..|q|];
  }

  /** The page: its form object. */
  class CreateArchivePage {
    var formData: map<string, FormValue>

    constructor ()
      ensures formData == InitialForm()
    {
      formData := InitialForm();
    }

    /** `handleInputChange`: stores the event's value under the event's name, nothing else. */
    method HandleInputChange(e: ChangeEvent)
      modifies this
      ensures formData == old(formData)[e.name := StoredValue(e)]
      ensures forall k :: k in old(formData) && k != e.name ==> k in formData && formData[k] == old(formData)[k]
      ensures WellFormed(old(formData)) && FromPageInput(e) ==> WellFormed(formData)
    {
      formData := formData[e.name := StoredValue(e)];
    }

    /** The "Public" radio. */
    method SelectPublic()
      modifies this
      ensures formData == old(formData)["isPublic" := Flag(true)]
      ensures WellFormed(old(formData)) ==> WellFormed(formData)
    {
      formData := formData["isPublic" := Flag(true)];
    }

    /** The "Private" radio. */
    method SelectPrivate()
      modifies this
      ensures formData == old(formData)["isPublic" := Flag(false)]
      ensures WellFormed(old(formData)) ==> WellFormed(formData)
    {
      formData := formData["isPublic" := Flag(false)];
    }

    /** `handleSubmit`: builds the draft and returns the path the router is sent to. */
    method HandleSubmit(now: nat, isoNow: string) returns (archive: DraftArchive, target: string)
      requires WellFormed(formData)
      ensures archive == BuildArchive(formData, now, isoNow)
      ensures target == ArchivePath(archive) && StartsWith(target, "/archive/arch_")
    {
      archive := BuildArchive(formData, now, isoNow);
      ArchivePathShape(archive);
      target := "/archive/" + archive.id;
    }
  }
}
