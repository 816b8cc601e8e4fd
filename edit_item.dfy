/** The edit dialog (components/EditItemModal.tsx): its three form fields,
    how they are initialised from the item, and `handleSubmit`, which
    validates them and builds the updated record. */
module EditItemModal {
  import opened Types
  import opened Seqs
  import opened Text

  /** The folder selector's value for "no folder". */
  const NoFolder: string := "none"

  const EmptyFieldsError: string := "Summary and tags cannot be empty."

  /** The form's state hooks: the summary, the tags as one comma-separated
      string, and the selected folder. */
  datatype EditForm = EditForm(summary: string, tags: string, folder: string)

  /** `item.folderId || 'none'`: no folder, and the empty folder id, select "none". */
  function InitialFolder(folderId: Option<string>): (sel: string)
    ensures folderId.Some? && folderId.value != "" ==> sel == folderId.value
    ensures folderId == None || folderId == Some("") ==> sel == NoFolder
  {
    if folderId.Some? && folderId.value != "" then folderId.value else NoFolder
  }

  /** The values the fields start with. Clean tags and a folder id other
      than "" and "none" read back from the fields as they were. */
  function InitialForm(item: SavedItem): (form: EditForm)
    ensures form.summary == item.summary
    ensures (forall k :: 0 <= k < |item.tags| ==> item.tags[k] != "" && Trimmed(item.tags[k]) && ',' !in item.tags[k])
            ==> ParseTags(form.tags) == item.tags
    ensures (item.folderId.Some? ==> item.folderId.value != "" && item.folderId.value != NoFolder)
            ==> SelectedFolder(form.folder) == item.folderId
  {
    var form := EditForm(item.summary, Join(item.tags, ", "), InitialFolder(item.folderId));
    if forall k :: 0 <= k < |item.tags| ==> item.tags[k] != "" && Trimmed(item.tags[k]) && ',' !in item.tags[k] then
      TagsRoundTrip(item.tags);
      form
    else
      form
  }

  /** `folderId === 'none' ? null : folderId`. */
  function SelectedFolder(sel: string): (folderId: Option<string>)
    ensures folderId == None <==> sel == NoFolder
    ensures folderId.Some? ==> folderId.value == sel
  {
    if sel == NoFolder then None else Some(sel)
  }

  /** Selecting a folder and saving stores the folder it started from, for
      every folder id other than the empty string and "none". */
  lemma FolderRoundTrip(folderId: Option<string>)
    requires folderId.Some? ==> folderId.value != "" && folderId.value != NoFolder
    ensures SelectedFolder(InitialFolder(folderId)) == folderId
  {
  }

  /** `Boolean` as a filter on strings: the empty string is dropped. */
  function NonEmpty(s: string): bool
  {
    s != ""
  }

  /** `tags.split(',').map(tag => tag.trim()).filter(Boolean)`. */
  function ParseTags(text: string): (tags: seq<string>)
    ensures forall k :: 0 <= k < |tags| ==> tags[k] != "" && Trimmed(tags[k]) && ',' !in tags[k]
  {
    var pieces := Map(Trim, Split(text, ','));
    TrimmedPiecesCommaFree(Split(text, ','));
    Filter(NonEmpty, pieces)
  }

  lemma {:induction false} TrimmedPiecesCommaFree(pieces: seq<string>)
    requires forall k :: 0 <= k < |pieces| ==> ',' !in pieces[k]
    ensures forall k :: 0 <= k < |Map(Trim, pieces)| ==> ',' !in Map(Trim, pieces)[k]
  {
    forall k | 0 <= k < |pieces|
      ensures ',' !in Trim(pieces[k])
    {
      TrimKeepsOut(pieces[k], ',');
    }
  }

  /** Trimming only removes characters. */
  lemma {:induction false} TrimKeepsOut(s: string, c: char)
    requires c !in s
    ensures c !in Trim(s)
  {
    var i := TrimSlice(s);
    forall k | 0 <= k < |Trim(s)|
      ensures Trim(s)[k] != c
    {
      assert Trim(s)[k] == s[i + k];
    }
  }

  /** The parsed tags are the trimmed comma-separated segments that are not
      empty, in their left-to-right order. */
  lemma ParsedTagsInOrder(text: string) returns (idx: seq<int>)
    ensures Embedding(ParseTags(text), Map(Trim, Split(text, ',')), idx)
    ensures forall j :: 0 <= j < |Split(text, ',')| ==> (Trim(Split(text, ',')[j]) != "" <==> j in idx)
  {
    idx := FilterEmbeds(NonEmpty, Map(Trim, Split(text, ',')));
  }

  /** A tag list of non-empty, trimmed, comma-free tags survives being shown
      as `tags.join(', ')` and parsed back. */
  lemma TagsRoundTrip(tags: seq<string>)
    requires forall k :: 0 <= k < |tags| ==> tags[k] != "" && Trimmed(tags[k]) && ',' !in tags[k]
    ensures ParseTags(Join(tags, ", ")) == tags
  {
    if tags == [] {
      SplitPiece("", ',');
      assert Map(Trim, [""]) == [Trim("")];
      assert AllWhitespace("");
    } else {
      var pieces := [tags[0]] + Map(Spaced, tags[1..]);
      JoinAsPieces(tags);
      SplitJoin(pieces, ',');
      TrimPieces(tags);
      FilterAllPass(NonEmpty, tags);
    }
  }

  /** Trimming the pieces of `join(', ')` gives back the tags. */
  lemma {:induction false} TrimPieces(tags: seq<string>)
    requires tags != []
    requires forall k :: 0 <= k < |tags| ==> Trimmed(tags[k])
    ensures Map(Trim, [tags[0]] + Map(Spaced, tags[1..])) == tags
  {
    var pieces := [tags[0]] + Map(Spaced, tags[1..]);
    forall k | 0 <= k < |pieces|
      ensures Trim(pieces[k]) == tags[k]
    {
      if k == 0 {
        TrimTrimmed(tags[0]);
      } else {
        assert pieces[k] == Spaced(tags[k]);
        TrimSpaced(tags[k]);
      }
    }
  }

  lemma {:induction false} TrimTrimmed(t: string)
    requires Trimmed(t)
    ensures Trim(t) == t
  {
    assert AllWhitespace("");
    TrimOf("", t, "");
    assert "" + t + "" == t;
  }

  lemma {:induction false} TrimSpaced(t: string)
    requires Trimmed(t)
    ensures Trim(Spaced(t)) == t
  {
    SpaceIsBlank();
    assert AllWhitespace("");
    TrimOf(" ", t, "");
    assert " " + t + "" == Spaced(t);
  }

  /** A tag as it appears after the first in `join(', ')`. */
  function Spaced(tag: string): string
  {
    " " + tag
  }

  lemma SpaceIsBlank()
    ensures AllWhitespace(" ")
  {
    assert IsWhitespace(" "[0]);
  }

  /** `join(', ')` is joining with `','` the first tag and the others
      preceded by a space. */
  lemma {:induction false} JoinAsPieces(tags: seq<string>)
    requires tags != []
    requires forall k :: 0 <= k < |tags| ==> ',' !in tags[k]
    ensures Join(tags, ", ") == Join([tags[0]] + Map(Spaced, tags[1..]), [','])
    ensures forall k :: 0 <= k < |[tags[0]] + Map(Spaced, tags[1..])| ==> ',' !in ([tags[0]] + Map(Spaced, tags[1..]))[k]
  {
    var pieces := [tags[0]] + Map(Spaced, tags[1..]);
    if |tags| > 1 {
      SpacedJoin(tags[1..]);
      assert pieces[1..] == Map(Spaced, tags[1..]);
    }
  }

  /** `' ' + join(tags, ', ')` is joining the spaced tags with `','`. */
  lemma {:induction false} SpacedJoin(tags: seq<string>)
    requires tags != []
    ensures " " + Join(tags, ", ") == Join(Map(Spaced, tags), [','])
    decreases |tags|
  {
    if |tags| > 1 {
      SpacedJoin(tags[1..]);
      var m := Map(Spaced, tags);
      assert m[1..] == Map(Spaced, tags[1..]);
      assert " " + (tags[0] + ", " + Join(tags[1..], ", "))
             == (" " + tags[0]) + [','] + (" " + Join(tags[1..], ", "));
    }
  }

  /** A tags field of nothing but commas and spaces passes the check and
      leaves the item with no tags. */
  lemma CommasOnlyClearTags()
    ensures !AllWhitespace(", ,")
    ensures ParseTags(", ,") == []
  {
    CommasSplit();
    BlanksTrimAway();
    var trimmed := Map(Trim, ["", " ", ""]);
    assert trimmed == ["", "", ""];
    FilterNonePass(NonEmpty, trimmed);
    CommaIsNotBlank(", ,");
  }

  lemma CommasSplit()
    ensures Split(", ,", ',') == ["", " ", ""]
  {
    var pieces := ["", " ", ""];
    assert Join(pieces, [',']) == ", ,";
    SplitJoin(pieces, ',');
  }

  lemma BlanksTrimAway()
    ensures Trim("") == "" && Trim(" ") == ""
  {
    SpaceIsBlank();
    assert AllWhitespace("");
  }

  lemma CommaIsNotBlank(s: string)
    requires ',' in s
    ensures !AllWhitespace(s)
  {
    var k :| 0 <= k < |s| && s[k] == ',';
    assert !IsWhitespace(s[k]);
  }

  /** What submitting the form does: report an error, or hand the updated
      record to `onUpdateItem`. */
  datatype Submission = Rejected(error: string) | Updated(item: SavedItem)

  /** `handleSubmit`. */
  function HandleSubmit(item: SavedItem, form: EditForm): (r: Submission)
    ensures r.Rejected? <==> AllWhitespace(form.summary) || AllWhitespace(form.tags)
    ensures r.Rejected? ==> r.error == EmptyFieldsError
    ensures r.Updated? ==> r.item.(summary := item.summary, tags := item.tags, folderId := item.folderId) == item
    ensures r.Updated? ==> r.item.summary == form.summary && r.item.tags == ParseTags(form.tags)
                           && r.item.folderId == SelectedFolder(form.folder)
  {
    if Trim(form.summary) == "" || Trim(form.tags) == "" then Rejected(EmptyFieldsError)
    else Updated(item.(summary := form.summary, tags := ParseTags(form.tags), folderId := SelectedFolder(form.folder)))
  }

  /** Saving the dialog without touching it gives back the item, whenever its
      summary is not blank, it has at least one tag, its tags are already
      clean and its folder id is neither empty nor "none". */
  lemma SaveUntouched(item: SavedItem)
    requires !AllWhitespace(item.summary)
    requires item.tags != []
    requires forall k :: 0 <= k < |item.tags| ==> item.tags[k] != "" && Trimmed(item.tags[k]) && ',' !in item.tags[k]
    requires item.folderId.Some? ==> item.folderId.value != "" && item.folderId.value != NoFolder
    ensures HandleSubmit(item, InitialForm(item)) == Updated(item)
  {
    TagsRoundTrip(item.tags);
    FolderRoundTrip(item.folderId);
    var text := Join(item.tags, ", ");
    assert !AllWhitespace(text) by {
      var tags := ParseTags(text);
      if AllWhitespace(text) {
        BlankSplitsBlank(text);
        assert tags[0] in Map(Trim, Split(text, ','));
      }
    }
  }

  /** A blank text splits into segments that all trim to nothing. */
  lemma {:induction false} BlankSplitsBlank(text: string)
    requires AllWhitespace(text)
    ensures forall k :: 0 <= k < |Map(Trim, Split(text, ','))| ==> Map(Trim, Split(text, ','))[k] == ""
  {
    var pieces := Split(text, ',');
    forall k | 0 <= k < |pieces|
      ensures Trim(pieces[k]) == ""
    {
      PieceOfBlank(pieces, k);
    }
  }

  lemma {:induction false} PieceOfBlank(pieces: seq<string>, k: int)
    requires 0 <= k < |pieces|
    requires AllWhitespace(Join(pieces, [',']))
    ensures AllWhitespace(pieces[k])
    decreases |pieces|
  {
    if |pieces| > 1 {
      var sep: string := [','];
      assert Join(pieces, sep) == (pieces[0] + sep) + Join(pieces[1..], sep);
      BlankConcat(IsWhitespace, pieces[0] + sep, Join(pieces[1..], sep));
      BlankConcat(IsWhitespace, pieces[0], sep);
      if k > 0 {
        PieceOfBlank(pieces[1..], k - 1);
      }
    }
  }

  /** An item without tags cannot be saved unchanged: its tags field starts
      out empty, which the check rejects. */
  lemma UntaggedItemRejected(item: SavedItem)
    requires item.tags == []
    ensures HandleSubmit(item, InitialForm(item)) == Rejected(EmptyFieldsError)
  {
    assert AllWhitespace("");
  }
}
