/**
 * The state-changing part of the main screen: building a record from the chosen
 * kind and content and handing it to the store, with or without a media upload
 * first. The upload itself is not modelled; its outcome (the returned URL, or
 * nothing on failure) is an input, as are the record's id and creation day.
 */
module MainScreen {
  import opened Types
  import opened QrView
  import opened UserContext

  /**
   * The content `handleGenerateButtonClick` ends up storing, if any: the typed
   * content when the kind is "text" or the content is non-empty; otherwise the
   * uploaded URL, provided a file was chosen and the upload gave a non-empty URL.
   */
  function GeneratedContent(selected: string, qrContent: string, filePresent: bool, upload: Option<string>): (c: Option<string>)
    ensures selected == "text" || qrContent != "" ==> c == Some(qrContent)
    ensures selected != "text" && c.Some? ==> c.value != ""
    ensures c.Some? && c.value != qrContent ==> filePresent && upload == c
    ensures selected != "text" && qrContent == "" && (!filePresent || upload.None?) ==> c.None?
    ensures selected != "text" && qrContent == "" && filePresent && upload.Some? && upload.value != "" ==> c == upload
  {
    if selected != "text" && qrContent == "" then
      if filePresent && upload.Some? && upload.value != "" then upload else None
    else Some(qrContent)
  }

  class MainView {
    const store: Store
    var showModal: bool
    var selectedType: string
    var selected: string
    var qrContent: string
    var loading: bool
    var sortOrder: SortOrder

    /** The screen's initial component state. */
    constructor (store: Store)
      ensures this.store == store
      ensures !showModal && selectedType == "all" && selected == "text" && qrContent == ""
      ensures !loading && sortOrder == Asc
    {
      this.store := store;
      showModal := false;
      selectedType := "all";
      selected := "text";
      qrContent := "";
      loading := false;
      sortOrder := Asc;
    }

    /** `generateAndStoreQR`: one new record of the selected kind holding `content`, then close the dialog. */
    method GenerateAndStoreQr(content: string, id: string, date: int)
      requires store.Valid()
      modifies this, store
      ensures store.Valid()
      ensures store.qrData == old(store.qrData) + [QR(id, selected, date, content)]
      ensures store.currentUser == WriteBackSession(old(store.currentUser), store.qrData)
      ensures store.users == WriteBack(old(store.users), old(store.currentUser), store.qrData)
      ensures store.storage == if old(store.currentUser).Some? then Persist(old(store.storage), store.users, store.currentUser)
        else old(store.storage)
      ensures !showModal
      ensures selected == old(selected) && selectedType == old(selectedType) && qrContent == old(qrContent)
      ensures loading == old(loading) && sortOrder == old(sortOrder)
    {
      var newQr := QR(id, selected, date, content);
      store.AddQr(newQr);
      showModal := false;
    }

    /**
     * `handleGenerateButtonClick`. `filePresent` says whether a media file was
     * chosen and `upload` is what the upload returned (None when it failed).
     */
    method HandleGenerateButtonClick(filePresent: bool, upload: Option<string>, id: string, date: int)
      requires store.Valid()
      modifies this, store
      ensures store.Valid()
      ensures var c := GeneratedContent(old(selected), old(qrContent), filePresent, upload);
        store.qrData == old(store.qrData) + (if c.Some? then [QR(id, old(selected), date, c.value)] else [])
      ensures GeneratedContent(old(selected), old(qrContent), filePresent, upload).Some? ==>
        store.currentUser == WriteBackSession(old(store.currentUser), store.qrData) &&
        store.users == WriteBack(old(store.users), old(store.currentUser), store.qrData) &&
        store.storage == (if old(store.currentUser).Some? then Persist(old(store.storage), store.users, store.currentUser)
          else old(store.storage))
      ensures GeneratedContent(old(selected), old(qrContent), filePresent, upload).None? ==>
        store.qrData == old(store.qrData) && store.users == old(store.users) &&
        store.currentUser == old(store.currentUser) && store.storage == old(store.storage)
      ensures showModal == (old(showModal) && GeneratedContent(old(selected), old(qrContent), filePresent, upload).None?)
      ensures qrContent == if old(selected) != "text" && old(qrContent) == "" && filePresent && upload.Some?
        then upload.value else old(qrContent)
      ensures loading == if old(selected) != "text" && old(qrContent) == "" && filePresent then false else old(loading)
      ensures selected == old(selected) && selectedType == old(selectedType) && sortOrder == old(sortOrder)
    {
      if selected != "text" && qrContent == "" {
        if filePresent {
          // handleUploadToCloudinary: loading while the upload runs, then the URL becomes the content
          loading := true;
          match upload
          case Some(url) =>
            qrContent := url;
            loading := false;
            if url != "" {
              GenerateAndStoreQr(url, id, date);
            }
          case None =>
            loading := false;
        }
      } else {
        GenerateAndStoreQr(qrContent, id, date);
      }
    }
  }
}
