/**
  The learning hub's data export: four stored values, each reported as
  null when it is missing or empty, and a timestamp supplied by the caller.
 */
module DataExport {
  import opened Wrappers
  import opened JsText
  import opened LocalStore
  import SignupForm
  import Survey
  import Progress

  /** The exported document's fields; `None` is JSON `null`. */
  datatype ExportRecord = ExportRecord(
    name: Option<string>,
    email: Option<string>,
    surveyResponse: Option<string>,
    lastPage: Option<string>,
    exportedAt: string)

  /** `localStorage.getItem(key) || null`: the stored value when it is a
      non-empty string, null otherwise. */
  function StoredOrNull(items: map<string, string>, key: string): (v: Option<string>)
    ensures v.None? <==> key !in items || items[key] == []
    ensures v.Some? ==> key in items && v.value == items[key]
  {
    var stored := Lookup(items, key);
    if Truthy(stored) then stored else None
  }

  /** The record the download button builds from the store. */
  function BuildExport(items: map<string, string>, exportedAt: string): (r: ExportRecord)
    ensures r.exportedAt == exportedAt
    ensures r.name.None? <==> !Truthy(Lookup(items, SignupForm.NameKey))
    ensures r.email.None? <==> !Truthy(Lookup(items, SignupForm.EmailKey))
    ensures r.surveyResponse.None? <==> !Truthy(Lookup(items, Survey.ResponseKey))
    ensures r.lastPage.None? <==> !Truthy(Lookup(items, Progress.LastPageKey))
    ensures r.name.Some? ==> r.name.value != [] && Lookup(items, SignupForm.NameKey) == r.name
    ensures r.email.Some? ==> r.email.value != [] && Lookup(items, SignupForm.EmailKey) == r.email
    ensures r.surveyResponse.Some? ==> r.surveyResponse.value != [] && Lookup(items, Survey.ResponseKey) == r.surveyResponse
    ensures r.lastPage.Some? ==> r.lastPage.value != [] && Lookup(items, Progress.LastPageKey) == r.lastPage
  {
    ExportRecord(
      StoredOrNull(items, SignupForm.NameKey),
      StoredOrNull(items, SignupForm.EmailKey),
      StoredOrNull(items, Survey.ResponseKey),
      StoredOrNull(items, Progress.LastPageKey),
      exportedAt)
  }

  /** The download button's handler, reading the store. */
  method DownloadData(store: Store, exportedAt: string) returns (record: ExportRecord)
    ensures record == BuildExport(store.items, exportedAt)
    ensures record.exportedAt == exportedAt
  {
    var name := store.GetItem(SignupForm.NameKey);
    var email := store.GetItem(SignupForm.EmailKey);
    var response := store.GetItem(Survey.ResponseKey);
    var lastPage := store.GetItem(Progress.LastPageKey);
    record := ExportRecord(
      if Truthy(name) then name else None,
      if Truthy(email) then email else None,
      if Truthy(response) then response else None,
      if Truthy(lastPage) then lastPage else None,
      exportedAt);
  }

  /** With a name, an e-mail address, a survey response and a last page
      stored, the export reports exactly those four strings. */
  lemma FullStoreExample(exportedAt: string)
    ensures var items := map[SignupForm.NameKey := "Ada", SignupForm.EmailKey := "a@b.co",
                             Survey.ResponseKey := "fine", Progress.LastPageKey := "hub"];
            BuildExport(items, exportedAt)
              == ExportRecord(Some("Ada"), Some("a@b.co"), Some("fine"), Some("hub"), exportedAt)
  {
  }

  /** An empty store exports four nulls. */
  lemma EmptyStoreExample(exportedAt: string)
    ensures BuildExport(map[], exportedAt) == ExportRecord(None, None, None, None, exportedAt)
  {
  }

  /** After a successful sign-up the export reports the trimmed name and
      e-mail address, never null: validation guarantees both are non-empty. */
  lemma ExportAfterSignup(items: map<string, string>, name: string, email: string, password: string,
                          exportedAt: string)
    requires SignupForm.EvaluateSignup(name, email, password).Accepted()
    ensures var record := BuildExport(SignupForm.SignupWrites(items, name, email), exportedAt);
            record.name == Some(Trim(name)) && record.email == Some(Trim(email))
  {
  }

  /** After an accepted survey answer the export reports that answer: an
      accepted answer has at least two code units, so it is never null. */
  lemma ExportAfterSurvey(items: map<string, string>, answer: string, exportedAt: string)
    requires |answer| >= Survey.MinChars
    ensures BuildExport(Survey.SurveyWrites(items, answer), exportedAt).surveyResponse == Some(answer)
  {
  }

  /** After a page load with a page key the export reports that key as the last page. */
  lemma ExportAfterPageLoad(items: map<string, string>, page: string, exportedAt: string)
    requires page != []
    ensures BuildExport(Progress.StoreAfter(items, Some(page)), exportedAt).lastPage == Some(page)
  {
  }
}
