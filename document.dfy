/**
 * The document list of `react/src/pages/Document.js`: search on the file
 * path, pagination, upload of one chosen file, the comment dialog and delete.
 */
module Document {
  import opened Wrappers
  import opened Lists
  import opened Text
  import opened Paging
  import opened Files

  /** `const perPage = 5`. */
  const PerPage: nat := 5

  /** A document row; the stored `file_path` and the `comment` may be missing. */
  datatype Doc = Doc(id: int, filePath: Option<string>, comment: Option<string>)

  /** `doc.file_path?.toLowerCase().includes(searchTerm.toLowerCase())`. */
  predicate DocMatches(d: Doc, term: string) {
    MatchesCI(d.filePath, term)
  }

  /** `filteredDocuments`. */
  function FilteredDocuments(documents: ListState<Doc>, term: string): (found: seq<Doc>)
    ensures documents.NotArray? ==> found == []
    ensures documents.Items? ==> forall d :: d in found <==> d in documents.items && DocMatches(d, term)
  {
    FilterState(documents, (d: Doc) => DocMatches(d, term))
  }

  /** The rows of the current page: at most five, each a listed document whose path matches the search. */
  function DocumentRows(documents: ListState<Doc>, term: string, currentPage: int): (rows: seq<Doc>)
    ensures |rows| <= PerPage
    ensures documents.NotArray? ==> rows == []
    ensures forall d :: d in rows ==> documents.Items? && d in documents.items && DocMatches(d, term)
  {
    Paginate(FilteredDocuments(documents, term), currentPage, PerPage)
  }

  /**
   * A page shows at most five documents, the row number of each is its
   * position among the search results, and walking the pager shows every
   * result once, in order.
   */
  lemma DocumentRowsSpec(documents: ListState<Doc>, term: string, currentPage: int, index: int)
    requires currentPage >= 1
    requires 0 <= index < |DocumentRows(documents, term, currentPage)|
    ensures |DocumentRows(documents, term, currentPage)| <= PerPage
    ensures DocumentRows(documents, term, currentPage)[index] ==
      FilteredDocuments(documents, term)[RowNumber(currentPage, PerPage, index) - 1]
    ensures Pages(FilteredDocuments(documents, term), PerPage, PageCount(|FilteredDocuments(documents, term)|, PerPage)) ==
      FilteredDocuments(documents, term)
  {
    PageWindow(FilteredDocuments(documents, term), currentPage, PerPage);
    RowNumberIsPosition(FilteredDocuments(documents, term), currentPage, PerPage, index);
    PagesCoverAll(FilteredDocuments(documents, term), PerPage);
  }

  /** An uploaded document shows up at the end of the search results when its path matches. */
  lemma UploadedIsLastResult(items: seq<Doc>, newDoc: Doc, term: string)
    ensures FilteredDocuments(Items(items + [newDoc]), term) ==
      FilteredDocuments(Items(items), term) + (if DocMatches(newDoc, term) then [newDoc] else [])
  {
    FilterAppend(items, [newDoc], (d: Doc) => DocMatches(d, term));
    assert [newDoc][1..] == [];
  }

  /** `documents.map(doc => doc.id === id ? {...doc, comment} : doc)`. */
  function SetComment(documents: seq<Doc>, id: int, comment: string): (r: seq<Doc>)
    ensures |r| == |documents|
  {
    seq(|documents|, i requires 0 <= i < |documents| => if documents[i].id == id then documents[i].(comment := Some(comment)) else documents[i])
  }

  /**
   * Only the documents with the selected id get the new comment; every
   * other document, and every other field, is unchanged, in the same order.
   */
  lemma SetCommentSpec(documents: seq<Doc>, id: int, comment: string)
    ensures forall i :: 0 <= i < |documents| ==>
      && SetComment(documents, id, comment)[i].id == documents[i].id
      && SetComment(documents, id, comment)[i].filePath == documents[i].filePath
      && (documents[i].id == id ==> SetComment(documents, id, comment)[i].comment == Some(comment))
      && (documents[i].id != id ==> SetComment(documents, id, comment)[i] == documents[i])
  {
  }

  /** `documents.filter(doc => doc.id !== id)`. */
  function RemoveDoc(documents: seq<Doc>, id: int): (r: seq<Doc>)
    ensures |r| <= |documents|
    ensures forall d :: d in r <==> d in documents && d.id != id
  {
    Filter(documents, (d: Doc) => d.id != id)
  }

  /** Deleting removes every document with that id and keeps the others in order. */
  lemma RemoveDocKeepsOrder(a: seq<Doc>, b: seq<Doc>, id: int)
    ensures RemoveDoc(a + b, id) == RemoveDoc(a, id) + RemoveDoc(b, id)
  {
    FilterAppend(a, b, (d: Doc) => d.id != id);
  }

  /** A call the page makes to the document service. */
  datatype DocumentRequest =
    | CreateDocument(file: FileRef)
    | UpdateComment(id: int, comment: string)
    | DeleteDocument(id: int)

  /** The page's state fields and the service calls it has made. */
  class DocumentPage {
    var documents: ListState<Doc>
    var searchTerm: string
    var currentPage: int
    var showModal: bool
    var selectedFile: Option<FileRef>
    var showCommentModal: bool
    var selectedDocument: Option<Doc>
    var comment: string
    var requests: seq<DocumentRequest>

    /** The page mounts with the fetched documents and every dialog closed. */
    constructor (documents: ListState<Doc>)
      ensures this.documents == documents && searchTerm == "" && currentPage == 1
      ensures !showModal && selectedFile == None && !showCommentModal && selectedDocument == None
      ensures comment == "" && requests == []
    {
      this.documents, searchTerm, currentPage := documents, "", 1;
      showModal, selectedFile, showCommentModal, selectedDocument := false, None, false, None;
      comment, requests := "", [];
    }

    /** `handleFileChange`: keeps only the first chosen file. */
    method HandleFileChange(files: seq<FileRef>)
      modifies this`selectedFile
      ensures selectedFile == FirstFile(files)
    {
      selectedFile := if |files| > 0 then Some(files[0]) else None;
    }

    /**
     * `handleUpload`: with no file chosen it only shows an error and makes no
     * call; otherwise the file is sent, and when the call succeeds the
     * document the server returns is appended at the end and the dialog is
     * closed and emptied.
     */
    method HandleUpload(callOk: bool, created: Doc) returns (noFile: bool)
      modifies this`documents, this`showModal, this`selectedFile, this`requests
      ensures noFile <==> old(selectedFile).None?
      ensures noFile ==>
        requests == old(requests) && documents == old(documents) && showModal == old(showModal) && selectedFile == old(selectedFile)
      ensures !noFile ==> requests == old(requests) + [CreateDocument(old(selectedFile).value)]
      ensures !noFile && callOk && old(documents).Items? ==>
        documents == Items(old(documents).items + [created]) && !showModal && selectedFile == None
      ensures !noFile && !(callOk && old(documents).Items?) ==>
        documents == old(documents) && showModal == old(showModal) && selectedFile == old(selectedFile)
    {
      if selectedFile.None? {
        return true;
      }
      requests := requests + [CreateDocument(selectedFile.value)];
      if callOk && documents.Items? {
        documents := Items(documents.items + [created]);
        showModal := false;
        selectedFile := None;
      }
      return false;
    }

    /** `handleShowCommentModal`: opens the dialog on a document with its current comment, or "" when it has none. */
    method HandleShowCommentModal(doc: Doc)
      modifies this`selectedDocument, this`comment, this`showCommentModal
      ensures selectedDocument == Some(doc) && showCommentModal
      ensures comment == doc.comment.GetOr("")
    {
      selectedDocument := Some(doc);
      comment := doc.comment.GetOr("");
      showCommentModal := true;
    }

    /**
     * `handleUpdateComment`: without a selected document nothing happens;
     * otherwise the comment is sent, and when the call succeeds it is stored
     * on the documents with that id and the dialog closes.
     */
    method HandleUpdateComment(callOk: bool)
      modifies this`documents, this`showCommentModal, this`requests
      ensures old(selectedDocument).None? ==>
        requests == old(requests) && documents == old(documents) && showCommentModal == old(showCommentModal)
      ensures old(selectedDocument).Some? ==>
        requests == old(requests) + [UpdateComment(old(selectedDocument).value.id, comment)]
      ensures old(selectedDocument).Some? && callOk && old(documents).Items? ==>
        documents == Items(SetComment(old(documents).items, old(selectedDocument).value.id, comment)) && !showCommentModal
      ensures old(selectedDocument).Some? && !(callOk && old(documents).Items?) ==>
        documents == old(documents) && showCommentModal == old(showCommentModal)
    {
      if selectedDocument.None? {
        return;
      }
      var id := selectedDocument.value.id;
      requests := requests + [UpdateComment(id, comment)];
      if callOk && documents.Items? {
        documents := Items(SetComment(documents.items, id, comment));
        showCommentModal := false;
      }
    }

    /** `handleDelete`: only after confirmation, and the list changes only when the call succeeds. */
    method HandleDelete(id: int, confirmed: bool, callOk: bool)
      modifies this`documents, this`requests
      ensures requests == old(requests) + (if confirmed then [DeleteDocument(id)] else [])
      ensures documents == if confirmed && callOk && old(documents).Items?
        then Items(RemoveDoc(old(documents).items, id)) else old(documents)
    {
      if !confirmed {
        return;
      }
      requests := requests + [DeleteDocument(id)];
      if callOk && documents.Items? {
        documents := Items(RemoveDoc(documents.items, id));
      }
    }

    /** The search box: the page number is kept as it is. */
    method SetSearchTerm(term: string)
      modifies this`searchTerm
      ensures searchTerm == term && currentPage == old(currentPage)
    {
      searchTerm := term;
    }

    /** A click on the pager, which is shown only when there is more than one page of matches. */
    method ClickPager(click: PagerClick)
      requires OnPager(click, PageCount(|FilteredDocuments(documents, searchTerm)|, PerPage))
      modifies this`currentPage
      ensures currentPage == Navigate(old(currentPage), PageCount(|FilteredDocuments(documents, searchTerm)|, PerPage), click)
    {
      currentPage := Navigate(currentPage, PageCount(|FilteredDocuments(documents, searchTerm)|, PerPage), click);
    }

    /** The upload button and the dialog's Cancel button. */
    method SetShowModal(show: bool)
      modifies this`showModal
      ensures showModal == show
    {
      showModal := show;
    }

    /** The comment box of the comment dialog. */
    method TypeComment(text: string)
      modifies this`comment
      ensures comment == text
    {
      comment := text;
    }

    /** The comment dialog's Cancel button: the selected document and the typed comment stay. */
    method CloseCommentModal()
      modifies this`showCommentModal
      ensures !showCommentModal
    {
      showCommentModal := false;
    }
  }
}
