/**
 * The Q&A pair form of the management page: the comma-separated keyword
 * field, the validation that refuses a save, the payload written to the
 * `qa_pairs` table (empty contents stored as `null`), the choice between an
 * insert and an update, and the component state that `handleSave`,
 * `handleEdit` and `resetForm` change.
 *
 * The signed-in user and the outcome of the database write are parameters;
 * the reload of the list after a successful save is reported, not performed.
 */
module QAManagement {
  import opened Wrappers
  import opened Text
  import opened Seqs

  /** A stored Q&A pair (the creation time is not modelled). */
  datatype QAPair = QAPair(
    id: string,
    question: string,
    observation: Option<string>,
    interpretation: Option<string>,
    actionable: Option<string>,
    keywords: seq<string>,
    isActive: bool)

  /** The text fields and switch of the form. */
  datatype FormData = FormData(
    question: string,
    observation: string,
    interpretation: string,
    actionable: string,
    keywords: string,
    isActive: bool)

  /** The row written by a save. */
  datatype Payload = Payload(
    question: string,
    observation: Option<string>,
    interpretation: Option<string>,
    actionable: Option<string>,
    keywords: seq<string>,
    isActive: bool,
    userId: string)

  /** The database write a save issues. */
  datatype Write = Insert(payload: Payload) | Update(id: string, payload: Payload)

  /** What a save decides before the write's own outcome is known. */
  datatype SaveRequest =
    | Invalid            // question or keyword list empty: refused, nothing written
    | NoUser             // no signed-in user: the save fails, nothing written
    | Issue(write: Write)

  /** The form as `resetForm` leaves it. */
  const EmptyForm := FormData("", "", "", "", "", true)

  // ---------------------------------------------------------------------------
  // Keywords

  /** A keyword as a save stores it: trimmed, non-empty and free of commas. */
  predicate IsKeyword(k: string) {
    k != [] && IsTrimmed(k) && ',' !in k
  }

  /** Every entry is a keyword. */
  predicate AllKeywords(ks: seq<string>) {
    forall i :: 0 <= i < |ks| ==> IsKeyword(ks[i])
  }

  /** `.map((k) => k.trim())`. */
  function TrimEach(pieces: seq<string>): (r: seq<string>)
    ensures |r| == |pieces|
    ensures forall i :: 0 <= i < |r| ==> r[i] == Trim(pieces[i])
  {
    if |pieces| == 0 then [] else [Trim(pieces[0])] + TrimEach(pieces[1..])
  }

  /** `.filter((k) => k)`: an empty string is falsy. */
  predicate NonEmpty(k: string) {
    k != []
  }

  /** `formData.keywords.split(",").map((k) => k.trim()).filter((k) => k)`. */
  function Keywords(input: string): (r: seq<string>)
    ensures AllKeywords(r)
  {
    KeptAreKeywords(Split(input, ','));
    Filter(TrimEach(Split(input, ',')), NonEmpty)
  }

  /** A non-empty trimmed piece without a comma is a keyword. */
  lemma TrimmedPiece(piece: string)
    requires ',' !in piece && Trim(piece) != []
    ensures IsKeyword(Trim(piece))
  {
    TrimChars(piece);
  }

  /** What the filter keeps of the trimmed comma-free pieces are keywords. */
  lemma KeptAreKeywords(pieces: seq<string>)
    requires forall i :: 0 <= i < |pieces| ==> ',' !in pieces[i]
    ensures AllKeywords(Filter(TrimEach(pieces), NonEmpty))
  {
    var r := Filter(TrimEach(pieces), NonEmpty);
    forall i | 0 <= i < |r|
      ensures IsKeyword(r[i])
    {
      KeptIsKeyword(pieces, r[i]);
    }
  }

  /** One entry the filter keeps of the trimmed comma-free pieces is a keyword. */
  lemma KeptIsKeyword(pieces: seq<string>, k: string)
    requires forall i :: 0 <= i < |pieces| ==> ',' !in pieces[i]
    requires k in Filter(TrimEach(pieces), NonEmpty)
    ensures IsKeyword(k)
  {
    var trimmed := TrimEach(pieces);
    assert k in trimmed;
    var j :| 0 <= j < |trimmed| && trimmed[j] == k;
    TrimmedPiece(pieces[j]);
  }

  /** Every piece is blank. */
  predicate AllBlank(pieces: seq<string>) {
    forall i :: 0 <= i < |pieces| ==> IsBlank(pieces[i])
  }

  /**
   * The keyword list is empty exactly when every comma-separated piece of the
   * input is blank (so `" , ,"` yields no keyword).
   */
  lemma KeywordsEmpty(input: string)
    ensures Keywords(input) == [] <==> AllBlank(Split(input, ','))
  {
    var pieces := Split(input, ',');
    if Keywords(input) == [] {
      NoKeywordAllBlank(pieces);
    } else {
      SomeKeywordNotBlank(pieces);
    }
  }

  /** With no keyword left, every piece was blank. */
  lemma NoKeywordAllBlank(pieces: seq<string>)
    requires Filter(TrimEach(pieces), NonEmpty) == []
    ensures AllBlank(pieces)
  {
    var trimmed := TrimEach(pieces);
    forall i | 0 <= i < |pieces|
      ensures IsBlank(pieces[i])
    {
      assert trimmed[i] in trimmed;
    }
  }

  /** A keyword left over comes from a piece that is not blank. */
  lemma SomeKeywordNotBlank(pieces: seq<string>)
    requires Filter(TrimEach(pieces), NonEmpty) != []
    ensures !AllBlank(pieces)
  {
    var trimmed := TrimEach(pieces);
    var k := Filter(trimmed, NonEmpty)[0];
    assert k in Filter(trimmed, NonEmpty);
    var i :| 0 <= i < |trimmed| && trimmed[i] == k;
    TrimNotEmpty(pieces[i]);
  }

  /** A piece whose trim is not empty is not blank. */
  lemma TrimNotEmpty(piece: string)
    requires Trim(piece) != []
    ensures !IsBlank(piece)
  {
  }

  /** The three conditions on a list of keywords, one at a time. */
  lemma KeywordParts(ks: seq<string>)
    requires AllKeywords(ks)
    ensures forall i :: 0 <= i < |ks| ==> ks[i] != []
    ensures forall i :: 0 <= i < |ks| ==> IsTrimmed(ks[i])
    ensures forall i :: 0 <= i < |ks| ==> ',' !in ks[i]
  {
  }

  /** Every piece of a list of keywords survives the filter. */
  lemma {:induction false} FilterAllNonEmpty(ks: seq<string>)
    requires forall i :: 0 <= i < |ks| ==> ks[i] != []
    ensures Filter(ks, NonEmpty) == ks
  {
    if |ks| > 0 {
      FilterAllNonEmpty(ks[1..]);
      assert [ks[0]] + ks[1..] == ks;
    }
  }

  /** Each keyword after the first as the pieces of a `", "` join split on `,` show it. */
  function Padded(ks: seq<string>): (r: seq<string>)
    ensures |r| == |ks|
    ensures forall i :: 0 <= i < |r| ==> r[i] == " " + ks[i]
  {
    if |ks| == 0 then [] else [" " + ks[0]] + Padded(ks[1..])
  }

  /** Joining with `", "` is joining the padded keywords with `","`. */
  lemma {:induction false} JoinPadded(ks: seq<string>)
    requires |ks| >= 1
    ensures Join(Padded(ks), [',']) == " " + Join(ks, ", ")
  {
    if |ks| > 1 {
      JoinPadded(ks[1..]);
      assert Padded(ks)[1..] == Padded(ks[1..]);
    }
  }

  /** The pieces of a `", "` join, split on `,`. */
  lemma SplitOfJoin(ks: seq<string>)
    requires |ks| >= 1
    requires forall i :: 0 <= i < |ks| ==> ',' !in ks[i]
    ensures Split(Join(ks, ", "), ',') == [ks[0]] + Padded(ks[1..])
  {
    JoinAsPieces(ks);
    PiecesCommaFree(ks);
    SplitJoin([ks[0]] + Padded(ks[1..]), ',');
  }

  /** A `", "` join is the `","` join of the first keyword and the padded rest. */
  lemma JoinAsPieces(ks: seq<string>)
    requires |ks| >= 1
    ensures Join([ks[0]] + Padded(ks[1..]), [',']) == Join(ks, ", ")
  {
    var parts := [ks[0]] + Padded(ks[1..]);
    if |ks| > 1 {
      var rest := Join(ks[1..], ", ");
      JoinPadded(ks[1..]);
      assert parts[1..] == Padded(ks[1..]);
      assert Join(parts, [',']) == ks[0] + [','] + (" " + rest);
      assert Join(ks, ", ") == ks[0] + ", " + rest;
      CommaThenSpace(ks[0], rest);
    } else {
      assert parts == ks;
    }
  }

  /** A comma and then a space is the `", "` separator. */
  lemma CommaThenSpace(a: string, b: string)
    ensures a + [','] + (" " + b) == a + ", " + b
  {
    assert [','] + " " == ", ";
  }

  /** No piece of a `", "` join of comma-free keywords holds a comma. */
  lemma PiecesCommaFree(ks: seq<string>)
    requires |ks| >= 1
    requires forall i :: 0 <= i < |ks| ==> ',' !in ks[i]
    ensures forall i :: 0 <= i < |ks| ==> ',' !in ([ks[0]] + Padded(ks[1..]))[i]
  {
    var parts := [ks[0]] + Padded(ks[1..]);
    forall i | 0 <= i < |ks|
      ensures ',' !in parts[i]
    {
      if i > 0 {
        assert parts[i] == " " + ks[i];
      }
    }
  }

  /** A single space is blank. */
  lemma SpaceIsBlank()
    ensures IsBlank(" ")
  {
    assert IsSpace(" "[0]);
  }

  /** Trimming the pieces of a `", "` join of trimmed keywords gives the keywords back. */
  lemma TrimPieces(ks: seq<string>)
    requires |ks| >= 1
    requires forall i :: 0 <= i < |ks| ==> IsTrimmed(ks[i])
    ensures TrimEach([ks[0]] + Padded(ks[1..])) == ks
  {
    var t := TrimEach([ks[0]] + Padded(ks[1..]));
    SpaceIsBlank();
    forall i | 0 <= i < |ks|
      ensures t[i] == ks[i]
    {
      var k := ks[i];
      assert IsTrimmed(k);
      if i == 0 {
        TrimOfTrimmed(k);
      } else {
        TrimAfterSpaces(" ", k);
      }
    }
  }

  /**
   * Re-saving the keywords the edit form shows (`keywords.join(", ")`) gives
   * back the stored list, for keywords that are trimmed, non-empty and free
   * of commas.
   */
  lemma KeywordsRoundTrip(ks: seq<string>)
    requires AllKeywords(ks)
    ensures Keywords(Join(ks, ", ")) == ks
  {
    if |ks| == 0 {
      assert Split("", ',') == [""];
      assert TrimEach([""]) == [""];
    } else {
      KeywordParts(ks);
      var pieces := Split(Join(ks, ", "), ',');
      SplitOfJoin(ks);
      TrimPieces(ks);
      assert TrimEach(pieces) == ks;
      FilterAllNonEmpty(ks);
    }
  }

  // ---------------------------------------------------------------------------
  // The save

  /** `value || null`: an empty string is stored as null. */
  function NullIfEmpty(s: string): (r: Option<string>)
    ensures r.None? <==> s == []
    ensures r.Some? ==> r.value == s
  {
    if s == [] then None else Some(s)
  }

  /** `qa.content || ""`: null is shown as an empty field. */
  function EmptyIfNull(v: Option<string>): (s: string)
    ensures NullIfEmpty(s) == (if v == Some([]) then None else v)
  {
    v.GetOr("")
  }

  /** The id being edited, when it is truthy (a non-empty string). */
  predicate IsEditing(editingId: Option<string>) {
    editingId.Some? && editingId.value != []
  }

  /** The row `handleSave` writes for the user `userId`. */
  function PayloadOf(form: FormData, userId: string): Payload {
    Payload(
      form.question,
      NullIfEmpty(form.observation),
      NullIfEmpty(form.interpretation),
      NullIfEmpty(form.actionable),
      Keywords(form.keywords),
      form.isActive,
      userId)
  }

  /**
   * What `handleSave` decides: refusal when the question or the keyword list
   * is empty, failure without a signed-in user, and otherwise an update of
   * the edited pair or an insert.
   */
  function Decide(form: FormData, editingId: Option<string>, user: Option<string>): (r: SaveRequest)
    ensures r == Invalid <==> form.question == [] || Keywords(form.keywords) == []
    ensures r == NoUser <==> r != Invalid && user.None?
    ensures r.Issue? ==>
              r.write.payload == PayloadOf(form, user.value)
              && (r.write.Update? <==> IsEditing(editingId))
              && (r.write.Update? ==> r.write.id == editingId.value)
  {
    if form.question == [] || Keywords(form.keywords) == [] then Invalid
    else if user.None? then NoUser
    else if IsEditing(editingId) then Issue(Update(editingId.value, PayloadOf(form, user.value)))
    else Issue(Insert(PayloadOf(form, user.value)))
  }

  /** The payload stores non-empty contents unchanged and empty ones as null. */
  lemma PayloadContents(form: FormData, userId: string)
    ensures var p := PayloadOf(form, userId);
            (p.observation.None? <==> form.observation == [])
            && (p.interpretation.None? <==> form.interpretation == [])
            && (p.actionable.None? <==> form.actionable == [])
            && (p.observation.Some? ==> p.observation.value == form.observation)
            && (p.interpretation.Some? ==> p.interpretation.value == form.interpretation)
            && (p.actionable.Some? ==> p.actionable.value == form.actionable)
            && AllKeywords(p.keywords)
  {
  }

  /** The form `handleEdit` fills in from a stored pair. */
  function EditForm(qa: QAPair): FormData {
    FormData(
      qa.question,
      EmptyIfNull(qa.observation),
      EmptyIfNull(qa.interpretation),
      EmptyIfNull(qa.actionable),
      Join(qa.keywords, ", "),
      qa.isActive)
  }

  /** A content as it comes back after an edit and a save: an empty string turns into null. */
  function Resaved(v: Option<string>): Option<string> {
    if v == Some([]) then None else v
  }

  /**
   * Editing a stored pair and saving it again unchanged updates that same
   * pair with the same question, keywords and switch; a content comes back
   * as null only when it was null or empty.
   */
  lemma EditThenSave(qa: QAPair, userId: string)
    requires qa.id != [] && qa.question != [] && |qa.keywords| > 0
    requires AllKeywords(qa.keywords)
    ensures Decide(EditForm(qa), Some(qa.id), Some(userId))
            == Issue(Update(qa.id, Payload(qa.question, Resaved(qa.observation), Resaved(qa.interpretation),
                                           Resaved(qa.actionable), qa.keywords, qa.isActive, userId)))
  {
    KeywordsRoundTrip(qa.keywords);
  }

  // ---------------------------------------------------------------------------
  // The component state

  /** The state of the management page that the form handlers change. */
  class QAForm {
    var form: FormData
    var editingId: Option<string>
    var showForm: bool

    /** The initial state: an empty form, nothing being edited, the form hidden. */
    constructor ()
      ensures form == EmptyForm && editingId == None && !showForm
    {
      form := EmptyForm;
      editingId := None;
      showForm := false;
    }

    /** `resetForm`: clears every text field, turns the switch on, stops editing and hides the form. */
    method Reset()
      modifies this
      ensures form == EmptyForm && editingId == None && !showForm
    {
      form := EmptyForm;
      editingId := None;
      showForm := false;
    }

    /** `handleEdit`: loads a stored pair into the form and shows it. */
    method Edit(qa: QAPair)
      modifies this
      ensures editingId == Some(qa.id) && form == EditForm(qa) && showForm
    {
      editingId := Some(qa.id);
      form := EditForm(qa);
      showForm := true;
    }

    /**
     * `handleSave` for the signed-in `user`, with `writeOk` the outcome of the
     * write it issues. Returns the decision and whether the list is reloaded.
     * Only a write that succeeds resets the form; a refusal, a missing user or
     * a failed write leave the state as it was.
     */
    method Save(user: Option<string>, writeOk: bool) returns (request: SaveRequest, reload: bool)
      modifies this
      ensures request == Decide(old(form), old(editingId), user)
      ensures reload <==> request.Issue? && writeOk
      ensures reload ==> form == EmptyForm && editingId == None && !showForm
      ensures !reload ==> form == old(form) && editingId == old(editingId) && showForm == old(showForm)
    {
      var keywords := Keywords(form.keywords);
      if form.question == [] || |keywords| == 0 {
        return Invalid, false;
      }
      if user.None? {
        return NoUser, false;
      }
      var payload := PayloadOf(form, user.value);
      if editingId.Some? && editingId.value != [] {
        request := Issue(Update(editingId.value, payload));
      } else {
        request := Issue(Insert(payload));
      }
      if !writeOk {
        return request, false;
      }
      Reset();
      reload := true;
    }
  }
}
