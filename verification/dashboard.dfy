/**
 * The seller dashboard: file validation and the upload form, publishing an
 * upload into the portfolio, the settings draft and its save, and the
 * "recent sales" panel. Each handler is one atomic transition on an
 * immutable dashboard state; the simulated upload delay is collapsed.
 */
module Dashboard {
  import opened Base
  import opened Profile

  datatype Tab = Overview | Photos | Upload | Settings

  /** A browser `File`, reduced to the two attributes the validator reads. */
  datatype File = File(fileType: string, size: nat)

  /**
   * The upload form: the selected file, the preview object URL (an opaque
   * token produced by the browser), and the message shown under the drop zone.
   */
  datatype UploadForm = UploadForm(selected: Option<File>, preview: Option<string>, error: Option<string>)

  /** The settings form draft: the four editable profile fields. */
  datatype SettingsDraft = SettingsDraft(firstName: string, lastName: string, bankName: string, accountNumber: string)

  /** The `name` attribute of a settings input. */
  datatype SettingsField = FirstName | LastName | BankName | AccountNumber

  datatype State = State(tab: Tab, profile: UserProfile, form: UploadForm, draft: SettingsDraft)

  const MaxImageBytes: nat := 5 * 1024 * 1024
  const ImagePrefix: string := "image/"
  const TypeError: string := "Please upload a valid image file (JPG, PNG)."
  const SizeError: string := "File size exceeds 5MB limit."

  const EmptyForm: UploadForm := UploadForm(None, None, None)

  const UploadPrice: string := "500 ETB"
  const UploadDate: string := "Just now"
  const UploadTitle: string := "New Upload"

  /** The number of sold photos the overview lists. */
  const RecentLimit: nat := 3

  /** The draft the settings form starts from: the profile's own values. */
  function DraftOf(p: UserProfile): SettingsDraft {
    SettingsDraft(p.firstName, p.lastName, p.bankName, p.accountNumber)
  }

  /** A freshly mounted dashboard for `user`. */
  function Init(user: UserProfile): (s: State)
    ensures s.tab == Overview && s.profile == user && s.form == EmptyForm
    ensures SaveSettings(s.profile, s.draft) == user
  {
    State(Overview, user, EmptyForm, DraftOf(user))
  }

  // ---------------------------------------------------------------- upload

  /**
   * `validateFile`: the type test comes first, then the size ceiling, which
   * is inclusive; `None` means the file is accepted.
   */
  function ValidateFile(f: File): (r: Option<string>)
    ensures r == Some(TypeError) <==> !(ImagePrefix <= f.fileType)
    ensures r == Some(SizeError) <==> ImagePrefix <= f.fileType && f.size > MaxImageBytes
    ensures r == None <==> ImagePrefix <= f.fileType && f.size <= MaxImageBytes
  {
    if !(ImagePrefix <= f.fileType) then Some(TypeError)
    else if f.size > MaxImageBytes then Some(SizeError)
    else None
  }

  /** A file of exactly five mebibytes is still accepted. */
  lemma FiveMebibytesAccepted(t: string)
    ensures ValidateFile(File(ImagePrefix + t, 5242880)) == None
  {
    assert ImagePrefix <= ImagePrefix + t;
  }

  /** One byte more and the size message is returned. */
  lemma OneByteOverRejected(t: string)
    ensures ValidateFile(File(ImagePrefix + t, 5242881)) == Some(SizeError)
  {
    assert ImagePrefix <= ImagePrefix + t;
  }

  /** An oversized file that is not an image gets the type message, not the size one. */
  lemma TypeCheckedBeforeSize(f: File)
    requires !(ImagePrefix <= f.fileType) && f.size > MaxImageBytes
    ensures ValidateFile(f) == Some(TypeError)
  {
  }

  /**
   * `handleDrop` and `handleFileChange`: only the first file of the list is
   * considered; an empty list changes nothing; a rejected file only sets the
   * message; an accepted one clears it and becomes the selection, with the
   * object URL `url` as its preview.
   */
  function SelectFile(form: UploadForm, files: seq<File>, url: string): (r: UploadForm)
    ensures |files| == 0 ==> r == form
    ensures |files| > 0 && ValidateFile(files[0]).Some? ==>
      r.error == ValidateFile(files[0]) && r.selected == form.selected && r.preview == form.preview
    ensures |files| > 0 && ValidateFile(files[0]).None? ==>
      r.error.None? && r.selected == Some(files[0]) && r.preview == Some(url)
  {
    if |files| == 0 then form
    else
      var err := ValidateFile(files[0]);
      if err.Some? then form.(error := err)
      else UploadForm(Some(files[0]), Some(url), None)
  }

  /** `clearFile`: selection, preview and message all go back to none. */
  function ClearFile(form: UploadForm): (r: UploadForm)
    ensures r.selected.None? && r.preview.None? && r.error.None?
  {
    EmptyForm
  }

  /** Choosing a file and then clearing it leaves the form as if nothing had been chosen. */
  lemma ClearUndoesSelect(form: UploadForm, files: seq<File>, url: string)
    ensures ClearFile(SelectFile(form, files, url)) == ClearFile(form)
  {
  }

  /** The portfolio entry a completed upload creates. */
  function NewPhoto(id: int, url: string): Photo {
    Photo(id, url, UploadPrice, Active, UploadDate, Some(UploadTitle))
  }

  /**
   * `handleUploadSubmit`, with its delayed completion taken as part of the
   * same step: with no file selected nothing happens; otherwise one new
   * Active photo is put in front of the portfolio, the Photos tab opens and
   * the form is cleared. `id` stands for the `Date.now()` value.
   */
  function UploadSubmit(s: State, id: int): (r: State)
    ensures s.form.selected.None? ==> r == s
    ensures s.form.selected.Some? ==>
      && |r.profile.photos| == |s.profile.photos| + 1
      && r.profile.photos[0].id == id
      && r.profile.photos[0].url == s.form.preview.GetOr("")
      && r.profile.photos[0].status == Active
      && r.profile.photos[0].price == UploadPrice
      && r.profile.photos[0].title == Some(UploadTitle)
      && r.profile.photos[0].date == UploadDate
      && r.profile.photos[1..] == s.profile.photos
      && r.profile == s.profile.(photos := r.profile.photos)
      && r.tab == Photos
      && r.form == EmptyForm
      && r.draft == s.draft
  {
    if s.form.selected.None? then s
    else
      var photo := NewPhoto(id, s.form.preview.GetOr(""));
      State(Photos, s.profile.(photos := [photo] + s.profile.photos), ClearFile(s.form), s.draft)
  }

  // -------------------------------------------------------------- settings

  /** The value a draft holds for one field. */
  function FieldValue(d: SettingsDraft, f: SettingsField): string {
    match f
    case FirstName => d.firstName
    case LastName => d.lastName
    case BankName => d.bankName
    case AccountNumber => d.accountNumber
  }

  /** `handleSettingsChange`: the named field takes the typed value, the others keep theirs. */
  function ChangeSetting(d: SettingsDraft, f: SettingsField, value: string): (r: SettingsDraft)
    ensures FieldValue(r, f) == value
    ensures forall g :: g != f ==> FieldValue(r, g) == FieldValue(d, g)
  {
    match f
    case FirstName => d.(firstName := value)
    case LastName => d.(lastName := value)
    case BankName => d.(bankName := value)
    case AccountNumber => d.(accountNumber := value)
  }

  /**
   * `saveSettings`: the four draft fields overwrite the profile's; username,
   * phone number, statistics, photos and the new-user flag are untouched.
   */
  function SaveSettings(p: UserProfile, d: SettingsDraft): (r: UserProfile)
    ensures DraftOf(r) == d
    ensures r.username == p.username && r.phoneNumber == p.phoneNumber
    ensures r.stats == p.stats && r.photos == p.photos && r.isNewUser == p.isNewUser
  {
    p.(firstName := d.firstName, lastName := d.lastName, bankName := d.bankName, accountNumber := d.accountNumber)
  }

  /** Saving an unedited draft changes nothing. */
  lemma SaveUneditedIsIdentity(p: UserProfile)
    ensures SaveSettings(p, DraftOf(p)) == p
  {
  }

  /** Saving is idempotent, and the last save wins. */
  lemma SaveTwice(p: UserProfile, d1: SettingsDraft, d2: SettingsDraft)
    ensures SaveSettings(SaveSettings(p, d1), d2) == SaveSettings(p, d2)
  {
  }

  // ---------------------------------------------------------- recent sales

  predicate HasSold(ps: seq<Photo>) {
    exists i :: 0 <= i < |ps| && ps[i].status == Sold
  }

  /** `photos.filter(p => p.status === 'Sold')`: the sold photos, in portfolio order. */
  function SoldPhotos(ps: seq<Photo>): (r: seq<Photo>)
    ensures |r| <= |ps|
    ensures forall k :: 0 <= k < |r| ==> r[k].status == Sold
    ensures |r| == 0 <==> !HasSold(ps)
  {
    if |ps| == 0 then []
    else
      var rest := SoldPhotos(ps[1..]);
      assert !HasSold(ps[1..]) ==> forall k :: 0 < k < |ps| ==> ps[k].status != Sold by {
        forall k | 0 < k < |ps| && !HasSold(ps[1..]) ensures ps[k].status != Sold {
          assert ps[k] == ps[1..][k - 1];
        }
      }
      if ps[0].status == Sold then [ps[0]] + rest else rest
  }

  /** A photo is listed as sold exactly when it is in the portfolio with status Sold. */
  lemma {:induction false} SoldPhotosMembers(ps: seq<Photo>, x: Photo)
    ensures x in SoldPhotos(ps) <==> x in ps && x.status == Sold
    decreases |ps|
  {
    if |ps| > 0 {
      SoldPhotosMembers(ps[1..], x);
      assert ps == [ps[0]] + ps[1..];
    }
  }

  /** Filtering distributes over concatenation, so list order is kept. */
  lemma {:induction false} SoldPhotosAppend(a: seq<Photo>, b: seq<Photo>)
    ensures SoldPhotos(a + b) == SoldPhotos(a) + SoldPhotos(b)
    decreases |a|
  {
    if |a| == 0 {
      assert a + b == b;
    } else {
      assert (a + b)[1..] == a[1..] + b;
      SoldPhotosAppend(a[1..], b);
    }
  }

  /** `xs.slice(0, n)`. */
  function Take<T>(xs: seq<T>, n: nat): seq<T> {
    if |xs| <= n then xs else xs[..n]
  }

  /** Filtering one more photo of the list appends it exactly when it is Sold. */
  lemma SoldPhotosSnoc(ps: seq<Photo>, i: nat)
    requires i < |ps|
    ensures SoldPhotos(ps[..i + 1]) == SoldPhotos(ps[..i]) + (if ps[i].status == Sold then [ps[i]] else [])
  {
    SoldPhotosAppend(ps[..i], [ps[i]]);
    assert ps[..i + 1] == ps[..i] + [ps[i]];
  }

  /** Once the sold photos of a prefix fill the limit, or the prefix is everything, they are the slice. */
  lemma TakeFromPrefix(ps: seq<Photo>, i: nat, n: nat)
    requires i <= |ps|
    requires |SoldPhotos(ps[..i])| <= n
    requires i == |ps| || |SoldPhotos(ps[..i])| == n
    ensures Take(SoldPhotos(ps), n) == SoldPhotos(ps[..i])
  {
    SoldPhotosAppend(ps[..i], ps[i..]);
    assert ps == ps[..i] + ps[i..];
  }

  /**
   * The "Recent Sales Activity" list: the first at most three sold photos,
   * in portfolio order; it is empty exactly when nothing was sold, which is
   * when the panel shows its "No sales yet" text instead.
   */
  method RecentSales(photos: seq<Photo>) returns (recent: seq<Photo>)
    ensures recent == Take(SoldPhotos(photos), RecentLimit)
    ensures |recent| <= RecentLimit
    ensures forall k :: 0 <= k < |recent| ==> recent[k].status == Sold
    ensures |recent| == 0 <==> !HasSold(photos)
  {
    recent := [];
    var i := 0;
    while i < |photos| && |recent| < RecentLimit
      invariant 0 <= i <= |photos|
      invariant recent == SoldPhotos(photos[..i])
      invariant |recent| <= RecentLimit
    {
      SoldPhotosSnoc(photos, i);
      if photos[i].status == Sold {
        recent := recent + [photos[i]];
      }
      i := i + 1;
    }
    TakeFromPrefix(photos, i, RecentLimit);
  }

  // --------------------------------------------------------------- events

  /** The dashboard's user-facing events. */
  datatype Event =
    | OpenTab(tab: Tab)
    | DropFiles(files: seq<File>, url: string)
    | ChooseFiles(files: seq<File>, url: string)
    | Clear
    | Submit(id: int)
    | EditSetting(field: SettingsField, value: string)
    | Save

  /**
   * One event's effect on the dashboard. Each handler owns one slice of the
   * state: the tab buttons the tab, the file inputs the upload form, the
   * settings inputs the draft, and only the upload and save buttons write
   * the profile; the rest stays as it was.
   */
  function Apply(s: State, e: Event): (r: State)
    ensures e.OpenTab? ==> r.tab == e.tab
    ensures !e.OpenTab? && !e.Submit? ==> r.tab == s.tab
    ensures !e.EditSetting? ==> r.draft == s.draft
    ensures !e.Submit? && !e.Save? ==> r.profile == s.profile
    ensures e.OpenTab? || e.EditSetting? || e.Save? ==> r.form == s.form
    ensures e.Save? ==> r.profile.photos == s.profile.photos && r.profile.stats == s.profile.stats
  {
    match e
    case OpenTab(t) => s.(tab := t)
    case DropFiles(files, url) => s.(form := SelectFile(s.form, files, url))
    case ChooseFiles(files, url) => s.(form := SelectFile(s.form, files, url))
    case Clear => s.(form := ClearFile(s.form))
    case Submit(id) => UploadSubmit(s, id)
    case EditSetting(f, v) => s.(draft := ChangeSetting(s.draft, f, v))
    case Save => s.(profile := SaveSettings(s.profile, s.draft))
  }

  function ApplyAll(s: State, es: seq<Event>): State
    decreases |es|
  {
    if |es| == 0 then s else ApplyAll(Apply(s, es[0]), es[1..])
  }

  /** The dashboard only ever adds photos: the earlier portfolio stays, in order, at the end. */
  predicate Extends(old_photos: seq<Photo>, new_photos: seq<Photo>) {
    |old_photos| <= |new_photos| && new_photos[|new_photos| - |old_photos|..] == old_photos
  }

  /** What one event may do to the profile: the shared part of every step. */
  predicate KeepsProfile(p: UserProfile, p': UserProfile) {
    && p'.username == p.username
    && p'.phoneNumber == p.phoneNumber
    && p'.stats == p.stats
    && p'.isNewUser == p.isNewUser
    && Extends(p.photos, p'.photos)
    && SoldPhotos(p'.photos) == SoldPhotos(p.photos)
  }

  lemma StepKeepsProfile(s: State, e: Event)
    ensures KeepsProfile(s.profile, Apply(s, e).profile)
  {
    var p, p' := s.profile.photos, Apply(s, e).profile.photos;
    if p' != p {
      assert p' == [p'[0]] + p && p'[0].status == Active;
      SoldPhotosAppend([p'[0]], p);
    }
    assert p'[|p'| - |p|..] == p;
  }

  lemma ExtendsTransitive(a: seq<Photo>, b: seq<Photo>, c: seq<Photo>)
    requires Extends(a, b) && Extends(b, c)
    ensures Extends(a, c)
  {
    assert c[|c| - |a|..] == c[|c| - |b|..][|b| - |a|..];
  }

  /**
   * Over any run of dashboard events, the username, phone number, statistics
   * and new-user flag never change, no photo is removed or reordered, and the
   * set of sold photos is unchanged (uploads are always Active).
   */
  lemma {:induction false} RunPreservesProfile(s: State, es: seq<Event>)
    ensures KeepsProfile(s.profile, ApplyAll(s, es).profile)
    decreases |es|
  {
    if |es| == 0 {
      assert s.profile.photos[0..] == s.profile.photos;
    } else {
      var s' := Apply(s, es[0]);
      StepKeepsProfile(s, es[0]);
      RunPreservesProfile(s', es[1..]);
      ExtendsTransitive(s.profile.photos, s'.profile.photos, ApplyAll(s, es).profile.photos);
    }
  }
}
