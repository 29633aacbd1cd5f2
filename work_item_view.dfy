/** The read-only work_items_view (pgmodels/work_item_view.go): the
    identifier an item's object has or will have once ingested, and the
    completion and missing-link tests. */
module WorkItemViews {
  import opened Wrappers
  import opened Errors
  import opened Constants
  import opened Records
  import WorkItems

  const TAR_EXTENSION := ".tar"

  /** The fields of a work_items_view row the core reads. */
  datatype WorkItemView = WorkItemView(
    id: int,
    name: string,
    etag: string,
    action: string,
    status: string,
    intellectualObjectID: int,
    objectIdentifier: string,
    institutionIdentifier: string)
  {
    /** Validate: the view is not writable, so it has nothing to check. */
    function Validate(): (v: Option<ValidationError>)
      ensures v.None?
    {
      None
    }

    /** HasCompleted: the status is one of the completed statuses. */
    predicate HasCompleted(c: Registry) {
      status in c.completedStatusValues
    }

    /** GetObjIdentifier: the object's identifier when the view has one,
        otherwise "<institution identifier>/<bag name>". */
    function GetObjIdentifier(): (ident: string)
      ensures objectIdentifier != "" ==> ident == objectIdentifier
      ensures objectIdentifier == "" ==>
                HasPrefix(ident, institutionIdentifier + "/")
                && institutionIdentifier + "/" + TrimTar(name) == ident
    {
      if objectIdentifier != "" then objectIdentifier
      else institutionIdentifier + "/" + TrimTar(name)
    }

    /** IngestObjectLinkIsMissing: a successful ingest that names no object. */
    predicate IngestObjectLinkIsMissing() {
      action == ACTION_INGEST && status == STATUS_SUCCESS && intellectualObjectID == 0
    }
  }

  predicate HasSuffix(s: string, suffix: string) {
    |suffix| <= |s| && s[|s| - |suffix|..] == suffix
  }

  /** The regular expression `\.tar$` replaced by "": `$` matches only at
      the end of the text, so at most one trailing ".tar" goes. */
  function TrimTar(name: string): (r: string)
    ensures HasSuffix(name, TAR_EXTENSION) ==> r + TAR_EXTENSION == name
    ensures !HasSuffix(name, TAR_EXTENSION) ==> r == name
  {
    if HasSuffix(name, TAR_EXTENSION) then name[..|name| - |TAR_EXTENSION|] else name
  }

  /** Removing the extension undoes adding it: a bag "b.tar" has the
      object identifier "<inst>/b", whatever b is. */
  lemma TrimTarOfTarFile(bag: string)
    ensures TrimTar(bag + TAR_EXTENSION) == bag
  {
    assert HasSuffix(bag + TAR_EXTENSION, TAR_EXTENSION);
    assert (bag + TAR_EXTENSION)[..|bag|] == bag;
  }

  /** Only the last ".tar" is removed, and a compressed tar keeps its
      name. */
  lemma TrimTarOnce(bag: string)
    ensures TrimTar(bag + TAR_EXTENSION + TAR_EXTENSION) == bag + TAR_EXTENSION
    ensures TrimTar(bag + TAR_EXTENSION + ".gz") == bag + TAR_EXTENSION + ".gz"
  {
    TrimTarOfTarFile(bag + TAR_EXTENSION);
    var gz := bag + TAR_EXTENSION + ".gz";
    assert gz[|gz| - 4] == 'r';
  }

  /** The identifier of a not yet ingested bag. */
  lemma PendingIngestIdentifier(v: WorkItemView, bag: string)
    requires v.objectIdentifier == "" && v.name == bag + TAR_EXTENSION
    ensures v.GetObjIdentifier() == v.institutionIdentifier + "/" + bag
  {
    TrimTarOfTarFile(bag);
  }

  /** The view and the table agree on completion. */
  lemma CompletedAsInTable(v: WorkItemView, r: WorkItemRow, c: Registry)
    requires v.status == r.status
    ensures v.HasCompleted(c) <==> WorkItems.HasCompleted(r, c)
  {
  }

  /** An item whose object link is missing has completed whenever
      "Success" is a completed status, so no pending query shows it. */
  lemma MissingLinkHasCompleted(v: WorkItemView, c: Registry)
    requires STATUS_SUCCESS in c.completedStatusValues
    requires v.IngestObjectLinkIsMissing()
    ensures v.HasCompleted(c)
  {
  }
}
