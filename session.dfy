/** The state of the summarizer page (script.js:1-10) and the handlers that
    change it: file selection by picker or drop, text extraction dispatched
    on the file's MIME type, and the two generators with their guards.

    Each asynchronous handler is one step here: the delays are dropped, and
    what the foreign libraries produce (the pages of a PDF document, the text
    recognised in an image, or the message of the exception they raise) is
    given to the handler as a parameter. Between steps no work is in flight,
    so every handler ends with its flag lowered. */
module Session {
  import opened Wrappers
  import opened Text
  import Sentences
  import Summarizer
  import Suggestions
  import PdfText

  /** The part of a browser `File` the controller reads. */
  datatype File = File(name: string, mimeType: string)

  const NoFileMessage := "Please select a file first to extract text."
  const PdfJsMissingMessage := "PDF.js library not loaded. Please ensure you have an active internet connection."
  const PdfFailurePrefix := "Failed to extract text from PDF: "
  const TesseractMissingMessage := "Tesseract.js library not loaded. Please ensure you have an active internet connection."
  const UnexpectedPrefix := "An unexpected error occurred during text extraction: "
  const UnsupportedMessage := "Unsupported file type. Please upload a PDF or an image file (e.g., JPG, PNG)."
  const NothingToSummarizeMessage := "No text has been extracted yet to summarize."
  const NoSummaryMessage := "Could not generate a summary from the provided text."
  const NothingToReviewMessage := "No document content available to generate suggestions from."

  class Session {
    var selectedFile: Option<File>
    var extractedText: string
    var summary: string
    var improvementSuggestions: string
    var error: string
    var summaryLength: string
    var isExtracting: bool
    var isGeneratingSummary: bool
    var isGeneratingSuggestions: bool

    /** What holds between handler steps: nothing is in flight; a text was
        extracted only from a selected file; an error is never shown beside an
        extracted text; a summary or a suggestion list exists only for an
        extracted text. */
    predicate Valid()
      reads this
    {
      && !isExtracting && !isGeneratingSummary && !isGeneratingSuggestions
      && (extractedText != "" ==> selectedFile.Some?)
      && (error != "" ==> extractedText == "")
      && (summary != "" ==> extractedText != "")
      && (improvementSuggestions != "" ==> extractedText != "")
    }

    /** The initial values of script.js:1-10. */
    constructor ()
      ensures Valid()
      ensures selectedFile == None && extractedText == "" && summary == ""
      ensures improvementSuggestions == "" && error == "" && summaryLength == "medium"
    {
      selectedFile := None;
      extractedText := "";
      summary := "";
      improvementSuggestions := "";
      error := "";
      summaryLength := "medium";
      isExtracting := false;
      isGeneratingSummary := false;
      isGeneratingSuggestions := false;
    }

    /** The common body of both selection handlers (script.js:98-104,
        117-123): the file becomes the selection and every derived text is
        cleared. */
    method Select(file: File)
      requires Valid()
      modifies this
      ensures Valid()
      ensures selectedFile == Some(file)
      ensures extractedText == "" && summary == "" && improvementSuggestions == "" && error == ""
      ensures summaryLength == old(summaryLength)
    {
      selectedFile := Some(file);
      extractedText := "";
      summary := "";
      improvementSuggestions := "";
      error := "";
    }

    /** `handleFileChange` (script.js:96-106): the first picked file, if any,
        is selected; an empty pick changes nothing. */
    method HandleFileChange(files: seq<File>)
      requires Valid()
      modifies this
      ensures Valid()
      ensures files == [] ==>
                && selectedFile == old(selectedFile) && extractedText == old(extractedText)
                && summary == old(summary) && improvementSuggestions == old(improvementSuggestions)
                && error == old(error)
      ensures files != [] ==>
                && selectedFile == Some(files[0])
                && extractedText == "" && summary == "" && improvementSuggestions == "" && error == ""
      ensures summaryLength == old(summaryLength)
    {
      if |files| > 0 {
        Select(files[0]);
      }
    }

    /** `handleDrop` (script.js:113-125): the first dropped file, if any, is
        selected; a drop without files changes nothing. */
    method HandleDrop(files: seq<File>)
      requires Valid()
      modifies this
      ensures Valid()
      ensures files == [] ==>
                && selectedFile == old(selectedFile) && extractedText == old(extractedText)
                && summary == old(summary) && improvementSuggestions == old(improvementSuggestions)
                && error == old(error)
      ensures files != [] ==>
                && selectedFile == Some(files[0])
                && extractedText == "" && summary == "" && improvementSuggestions == "" && error == ""
      ensures summaryLength == old(summaryLength)
    {
      if |files| > 0 {
        Select(files[0]);
      }
    }

    /** The `change` listener of the length selector (script.js:487-489). */
    method SetSummaryLength(value: string)
      requires Valid()
      modifies this
      ensures Valid()
      ensures summaryLength == value
      ensures selectedFile == old(selectedFile) && extractedText == old(extractedText)
      ensures summary == old(summary) && improvementSuggestions == old(improvementSuggestions)
      ensures error == old(error)
    {
      summaryLength := value;
    }

    /** `extractTextFromFile` (script.js:127-201). `pdfjsLoaded` and
        `tesseractLoaded` say whether `window.pdfjsLib` and
        `window.Tesseract` exist; `pdf` is the document PDF.js reads (its
        pages, each the `str` of its text items) or the message of the error
        it raises; `ocr` is the text Tesseract recognises or the message of
        the error it raises. Without a selection only the error is set;
        otherwise the derived texts are cleared and, on every path, the
        extraction ends with `isExtracting` lowered and with either the
        extracted text and no error, or an error and no text. */
    method ExtractTextFromFile(pdfjsLoaded: bool, tesseractLoaded: bool,
                               pdf: Result<seq<seq<string>>>, ocr: Result<string>)
      requires Valid()
      modifies this
      ensures Valid()
      ensures selectedFile == old(selectedFile) && summaryLength == old(summaryLength)
      ensures old(selectedFile).None? ==>
                && error == NoFileMessage
                && extractedText == old(extractedText) && summary == old(summary)
                && improvementSuggestions == old(improvementSuggestions)
      ensures old(selectedFile).Some? ==>
                var mime := old(selectedFile).value.mimeType;
                && summary == "" && improvementSuggestions == ""
                && (error == "" || extractedText == "")
                && (mime == "application/pdf" && !pdfjsLoaded ==>
                      error == PdfJsMissingMessage && extractedText == "")
                && (mime == "application/pdf" && pdfjsLoaded && pdf.Err? ==>
                      error == PdfFailurePrefix + pdf.message && extractedText == "")
                && (mime == "application/pdf" && pdfjsLoaded && pdf.Ok? ==>
                      error == "" && extractedText == Join(PdfText.PageTexts(pdf.value), "\n"))
                && (mime != "application/pdf" && StartsWith(mime, "image/") && !tesseractLoaded ==>
                      error == TesseractMissingMessage && extractedText == "")
                && (mime != "application/pdf" && StartsWith(mime, "image/") && tesseractLoaded && ocr.Err? ==>
                      error == UnexpectedPrefix + ocr.message && extractedText == "")
                && (mime != "application/pdf" && StartsWith(mime, "image/") && tesseractLoaded && ocr.Ok? ==>
                      error == "" && extractedText == ocr.value)
                && (mime != "application/pdf" && !StartsWith(mime, "image/") ==>
                      error == UnsupportedMessage && extractedText == "")
    {
      if selectedFile.None? {
        error := NoFileMessage;
        return;
      }

      isExtracting := true;
      error := "";
      extractedText := "";
      summary := "";
      improvementSuggestions := "";

      var mime := selectedFile.value.mimeType;
      if mime == "application/pdf" {
        if !pdfjsLoaded {
          error := PdfJsMissingMessage;
          isExtracting := false;
          return;
        }
        match pdf {
          case Ok(pages) =>
            var text := PdfText.ExtractPdfText(pages);
            extractedText := text;
          case Err(message) =>
            error := PdfFailurePrefix + message;
        }
        isExtracting := false;
      } else if StartsWith(mime, "image/") {
        if !tesseractLoaded {
          error := TesseractMissingMessage;
          isExtracting := false;
          return;
        }
        match ocr {
          case Ok(text) =>
            extractedText := text;
            isExtracting := false;
          case Err(message) =>
            error := UnexpectedPrefix + message;
            isExtracting := false;
        }
      } else {
        error := UnsupportedMessage;
        isExtracting := false;
      }
    }

    /** `generateSummary` (script.js:203-309), with the keyword emphasis of
        script.js:250-301 given as `emphasize`. Without an extracted text
        only the error is set. Otherwise the error is cleared and the summary
        becomes the selection `chosen` of the summarizer rendered, or the
        fallback message when that rendering is empty. */
    method GenerateSummary(emphasize: string -> string) returns (chosen: seq<string>)
      requires Valid()
      modifies this
      ensures Valid()
      ensures selectedFile == old(selectedFile) && extractedText == old(extractedText)
      ensures improvementSuggestions == old(improvementSuggestions) && summaryLength == old(summaryLength)
      ensures old(extractedText) == "" ==> error == NothingToSummarizeMessage && summary == old(summary)
      ensures old(extractedText) != "" ==>
                var sentences := Sentences.Split(extractedText);
                && error == ""
                && (sentences == [] ==> summary == Summarizer.NoTextMessage && chosen == [])
                && (sentences != [] ==>
                      && Summarizer.IsSummarySelection(sentences, Summarizer.TargetCount(summaryLength, |sentences|), chosen)
                      && var rendered := Summarizer.Render(chosen, emphasize);
                         summary == if rendered == "" then NoSummaryMessage else rendered)
    {
      if extractedText == "" {
        error := NothingToSummarizeMessage;
        chosen := [];
        return;
      }

      isGeneratingSummary := true;
      summary := "";
      error := "";

      var mock;
      mock, chosen := Summarizer.Summarize(extractedText, summaryLength, emphasize);
      summary := if mock == "" then NoSummaryMessage else mock;
      isGeneratingSummary := false;
    }

    /** `generateImprovementSuggestions` (script.js:311-358). Without an
        extracted text only the error is set; otherwise the error is cleared
        and the suggestions become the template for the text's word count. */
    method GenerateImprovementSuggestions()
      requires Valid()
      modifies this
      ensures Valid()
      ensures selectedFile == old(selectedFile) && extractedText == old(extractedText)
      ensures summary == old(summary) && summaryLength == old(summaryLength)
      ensures old(extractedText) == "" ==>
                error == NothingToReviewMessage && improvementSuggestions == old(improvementSuggestions)
      ensures old(extractedText) != "" ==>
                error == "" && improvementSuggestions == Suggestions.SuggestionsText(extractedText)
    {
      if extractedText == "" {
        error := NothingToReviewMessage;
        return;
      }

      isGeneratingSuggestions := true;
      improvementSuggestions := "";
      error := "";

      improvementSuggestions := Suggestions.SuggestionsText(extractedText);
      isGeneratingSuggestions := false;
    }
  }
}
