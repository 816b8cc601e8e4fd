/** The add dialog (components/AddItemModal.tsx): the pasted text is
    checked, sent off for annotation while `isLoading` is set, and on
    success turned into a new record; a failure is reported in `error`. */
module AddItemModal {
  import opened Types
  import opened Text
  import Library

  const EmptyTextError: string := "Please paste some text from the chat."
  const UnknownError: string := "An unknown error occurred."
  const AnnotationModel: string := "Gemini 2.5 Flash"

  /** What the annotation service returns on success. */
  datatype ProcessedContent = ProcessedContent(summary: string, tags: seq<string>)

  /** The settled annotation call: its content, or the value it threw, which
      carries a message when it is an `Error` and none otherwise. */
  datatype Annotation = Success(content: ProcessedContent) | Failure(message: Option<string>)

  /** The record literal handed to `onAddItem`; `now` is the submission
      instant. */
  function NewItem(rawText: string, content: ProcessedContent, context: PageContext, now: int): (d: ItemDraft)
    ensures d.text == rawText && d.markdown == rawText
    ensures d.summary == content.summary && d.tags == content.tags
    ensures d.codeBlocks == [] && d.images == [] && d.model == AnnotationModel
    ensures d.url == context.url && d.pageTitle == context.pageTitle
    ensures d.timestamp == now && d.sourcePlatform == Other
  {
    ItemDraft(rawText, rawText, content.summary, content.tags, [], [], AnnotationModel,
              context.url, context.pageTitle, now, Other)
  }

  /** The message `setError` receives in the `catch` branch. */
  function FailureMessage(message: Option<string>): string
  {
    match message
    case Some(m) => m
    case None => UnknownError
  }

  /** The dialog's state hooks. */
  class AddItemForm {
    var rawText: string
    var isLoading: bool
    var error: Option<string>

    constructor (initialText: string)
      ensures rawText == initialText && !isLoading && error == None
    {
      rawText := initialText;
      isLoading := false;
      error := None;
    }

    /** The text area's `onChange`. */
    method SetRawText(text: string)
      modifies this`rawText
      ensures rawText == text
    {
      rawText := text;
    }

    /** `handleSubmit` up to the awaited call: a blank text sets the error
        and requests nothing; otherwise loading starts with the error
        cleared, and the text to annotate is returned. */
    method BeginSubmit() returns (request: Option<string>)
      modifies this`isLoading, this`error
      ensures request == None <==> AllWhitespace(rawText)
      ensures request == None ==> error == Some(EmptyTextError) && isLoading == old(isLoading)
      ensures request.Some? ==> request.value == rawText && isLoading && error == None
    {
      if Trim(rawText) == "" {
        error := Some(EmptyTextError);
        return None;
      }
      isLoading := true;
      error := None;
      request := Some(rawText);
    }

    /** `handleSubmit` after the awaited call settles: on success the new
        record is returned for `onAddItem`, on failure the error is set;
        either way loading ends. */
    method FinishSubmit(request: string, result: Annotation, context: PageContext, now: int)
      returns (created: Option<ItemDraft>)
      modifies this`isLoading, this`error
      ensures !isLoading
      ensures result.Success? ==> created == Some(NewItem(request, result.content, context, now)) && error == old(error)
      ensures result.Failure? ==> created == None && error == Some(FailureMessage(result.message))
    {
      match result {
        case Success(content) =>
          created := Some(NewItem(request, content, context, now));
        case Failure(message) =>
          created := None;
          error := Some(FailureMessage(message));
      }
      isLoading := false;
    }

    /** The whole of `handleSubmit` when nothing else happens while the call
        is pending; `annotate` stands for the annotation service. A record
        is only ever created from a non-blank text, and only when the
        service succeeded. */
    method HandleSubmit(annotate: string -> Annotation, context: PageContext, now: int)
      returns (created: Option<ItemDraft>)
      modifies this`isLoading, this`error
      ensures AllWhitespace(rawText) ==> created == None && error == Some(EmptyTextError) && isLoading == old(isLoading)
      ensures !AllWhitespace(rawText) ==> !isLoading
      ensures !AllWhitespace(rawText) && annotate(rawText).Failure? ==>
                created == None && error == Some(FailureMessage(annotate(rawText).message))
      ensures created.Some? <==> !AllWhitespace(rawText) && annotate(rawText).Success?
      ensures created.Some? ==> created.value == NewItem(rawText, annotate(rawText).content, context, now) && error == None
      ensures created.Some? ==> !AllWhitespace(created.value.text)
    {
      var request := BeginSubmit();
      if request == None {
        return None;
      }
      created := FinishSubmit(request.value, annotate(request.value), context, now);
    }
  }

  /** A successful submission handed to the library's `handleAddItem`: the
      stored list gains exactly one record, holding the pasted text and the
      annotation, not a favourite and in no folder. */
  lemma SubmittedRecordStored(items: seq<SavedItem>, rawText: string, content: ProcessedContent,
                              context: PageContext, now: int, id: string)
    ensures var stored := Library.AddItem(items, NewItem(rawText, content, context, now), id);
            var record := Library.NewRecord(NewItem(rawText, content, context, now), id);
            && record in stored
            && record.text == rawText && record.summary == content.summary && record.tags == content.tags
            && !record.isFavorite && record.folderId == None
            && |stored| == |items| + 1
  {
    var record := Library.NewRecord(NewItem(rawText, content, context, now), id);
    var stored := Library.AddItem(items, NewItem(rawText, content, context, now), id);
    assert record in multiset(stored);
  }
}
