# Email spam detection — a Dafny model of its logic

The system converts the Enron spam CSV into one text file per email, trains
a perceptron on TF-IDF features plus five link-derived counts, serves
predictions from a Flask `/predict` endpoint, and shows them in a React front
end. This project models the parts of it that are logic rather than
numerics, and proves what they promise:

- `text.dfy` (module `Text`) holds the string primitives the sources lean on.
  - Python's `str.strip` and JavaScript's `trim` are one generic `Strip`
    over a whitespace predicate.
  - Also here: ASCII `lower`, `' '.join`, `split()`, and the zero-padded
    decimal of `{n:06d}` with its parse back.
- `values.dfy` (module `Values`) is one JSON / JavaScript value type, with
  Python and JavaScript truthiness and property lookup.
- `dataset.py` is modelled by `dataset.dfy` (module `Dataset`).
  - The pure helpers are functions: `normalize_label`, `clean_text` and
    `sanitize_filename`.
  - The row loop of `main` is a method with the `counters` map and the
    `lines` list. It returns the files it would write, in order.
- `clean_text` and `extract_link_features` exist twice in the sources, in
  `backend/app.py` and in `enron_perceptron_train.py`. The two copies apply
  the same steps in the same order; they differ only in where the stemmer
  and the stopword set come from. `features.dfy` (module `TextFeatures`)
  defines each once, so both sides use the same definitions, which is
  faithful for a stateless stemmer and equal stopword sets.
  - The regular expressions are written out as scans over characters.
  - The Porter stemmer and the stopword set are parameters.
- `backend.dfy` (module `Backend`) models the `/predict` handler.
  - It covers the model-loaded check, body validation, and mapping the
    predicted class to a label.
  - The fitted vectorizer, scaler and perceptron are one `classify`
    parameter.
- `training.dfy` (module `Training`) models the non-numeric parts of the
  training script:
  - `parse_email`, over an abstract list of (content type, content) parts;
  - `load_dataset`, with its three parallel lists;
  - the stacked feature names;
  - the top-15 weight selection and the `feature_importance` list.
- `analyzer.dfy` (module `SpamAnalyzer`, class `Analyzer`) models
  `SpamAnalyzer.jsx`.
  - It covers the single-slot trailing-edge debounce and the `analyze`
    transitions over `loading`, `result` and `error`.
  - Time is abstract ticks.
  - A request is sent by appending it to `requests`. It settles later
    through `CompleteSuccess` or `CompleteFailure`.
- `metrics.dfy` (module `MetricsPanel`, class `Panel`) models
  `MetricsPanel.jsx`.
  - It covers the fetch-once state, the render guards, and the placement
    of the confusion-matrix cells.

In `dataset.py`, `astype(str)` is applied before `fillna("")`, so a missing
message ID becomes the string `"nan"` (see Findings). `Dataset.PrepareRow`,
which the conversion uses, applies the fill first, as evidently intended.
`Dataset.PrepareRowAsWritten` keeps the order the code has.

## Model

| member | source | states |
|---|---|---|
| Text.StripEmptyIff | backend/app.py:68-69 | a stripped string is empty exactly when every character of the original is whitespace |
| Text.StripPadding | backend/app.py:68 | whitespace added around a string does not change what strip returns |
| Text.StripIdempotent | dataset.py:32 | stripping twice gives the same as stripping once |
| Text.LowerIdempotent | backend/app.py:46 | lowercasing an already lowercased string changes nothing |
| Text.LowerStrip | dataset.py:19 | lowercasing and stripping commute, so `str(val).strip().lower()` does not depend on their order |
| Text.TokensOfJoin | backend/app.py:51 | splitting a space-joined list of non-empty, whitespace-free tokens gives back exactly that list |
| Text.DecimalRoundTrip | dataset.py:81 | parsing the decimal digits of `n` gives back `n` |
| Text.ZeroPadRoundTrip | dataset.py:81 | parsing the zero-padded counter gives back the counter, whatever the width |
| Text.ZeroPadInjective | dataset.py:81 | two counters with the same zero-padded text are equal |
| Dataset.NormalizeLabel | dataset.py:16-24 | a NaN cell normalises to no label; the result is spam, ham or nothing |
| Dataset.NormalizeLabelIgnoresPadding | dataset.py:19 | whitespace around the label text does not change the label |
| Dataset.NormalizeLabelIgnoresCase | dataset.py:19 | two texts that lowercase to the same string get the same label |
| Dataset.NormalizeLabelIdempotent | dataset.py:20-23 | "spam" normalises to spam and "ham" to ham |
| Dataset.NormalizeLabelTable | dataset.py:20-24 | for a lowercase, unpadded text: spam iff it is one of "spam", "1", "true", "yes"; ham iff one of "ham", "0", "false", "no", "not spam", "legit"; none otherwise |
| Dataset.ReplaceCrLf | dataset.py:29 | never longer than the input, and text without `\r` is unchanged |
| Dataset.ReplaceCrLfPair | dataset.py:29 | a leading CRLF pair becomes a single newline |
| Dataset.ReplaceCrLfHead | dataset.py:29 | a first character that does not open a CRLF pair is copied unchanged |
| Dataset.ReplaceCr | dataset.py:29 | same length; each `\r` becomes `\n` and every other character is kept |
| Dataset.CollapseBlanks | dataset.py:30 | every remaining non-newline whitespace character is a single space, and no two of them are adjacent |
| Dataset.BlankRunCollapses | dataset.py:30 | a maximal run of non-newline whitespace before a non-blank character, or before the end, becomes exactly one space |
| Dataset.CollapseKeepsHead | dataset.py:30 | a non-blank character, a newline included, is copied and the collapse continues after it; with `BlankRunCollapses` this fixes the result on every input |
| Dataset.CollapseKeepsNonBlank | dataset.py:30 | every character that is not non-newline whitespace, newlines included, survives in order |
| Dataset.RemoveZeroWidth | dataset.py:31 | the result is the input with exactly the U+200B, U+200C and U+200D characters removed, everything else kept in order |
| Dataset.CleanText | dataset.py:26-32 | no `\r`, no zero-width character, only `' '` and `'\n'` as whitespace, and no whitespace at either end |
| Dataset.CleanTextKeepsVisible | dataset.py:26-32 | the non-whitespace, non-zero-width characters of the input survive cleaning unchanged and in order |
| Dataset.SanitizeFilename | dataset.py:34-35 | same length, only `[A-Za-z0-9_.-]` in the result; a character is kept exactly when it is in that set, and every other character becomes `_` |
| Dataset.SanitizeFilenameIdempotent | dataset.py:35 | sanitising twice gives the same as sanitising once |
| Dataset.SanitizeFilenameKeepsSafe | dataset.py:35 | a name made of safe characters is returned unchanged |
| Dataset.IdNameOfSafeId | dataset.py:78 | an ID made of safe characters names its file verbatim as `<label>_<id>.txt` |
| Dataset.PrepareRowAsWritten | dataset.py:57-60 | as written, a missing Message ID or Date cell becomes the text "nan" |
| Dataset.PrepareRow | dataset.py:57-60 | a missing ID never names the file and a missing date gives an empty Date line; with both cells present the row is exactly what the script computes |
| Dataset.Keep | dataset.py:63-64 | a row is kept when its label is spam or ham and its cleaned subject or body is non-empty |
| Dataset.PreparedRows | dataset.py:54-60 | the derived columns are computed for every input row, one prepared row per input row |
| Dataset.PreparedRowsAt | dataset.py:54-60 | prepared row `i` is the preparation of input row `i` |
| Dataset.KeptRows | dataset.py:63-64 | every kept row has a spam or ham label and a non-empty subject or body, and is one of the prepared input rows; no more rows than the input |
| Dataset.KeptRowsFromInput | dataset.py:63-64 | each kept row is the preparation of some input row |
| Dataset.KeptRowsOne | dataset.py:63-64 | a single input row gives its prepared row when it passes both filters, and nothing otherwise |
| Dataset.KeptRowsAppend | dataset.py:63-64 | the filter distributes over concatenation, so kept rows stay in input order |
| Dataset.KeptRowsKeeps | dataset.py:63-64 | every input row that passes both filters is kept |
| Dataset.ComposeContent | dataset.py:86-97 | the `lines` appends joined by newlines are the header lines, an empty line, then the body |
| Dataset.HeaderOpens | dataset.py:87-88 | the content opens with the Subject line, then the Label line |
| Dataset.Layout | dataset.py:86-97 | the header lines, an empty line, then the body; `HeaderOpens` and `LayoutBody` state this shape |
| Dataset.LayoutBody | dataset.py:89-94 | the header is followed by exactly two newlines and then the body, unchanged |
| Dataset.NameRow | dataset.py:76-81 | ID-named rows leave the counters alone; any other row bumps only its label's counter and is named after the new value |
| Dataset.RowFile | dataset.py:69-97 | one loop turn writes the file of row `i` into its label's folder, and the counters count the counter-named rows so far, per label |
| Dataset.WriteRows | dataset.py:67-97 | the loop writes, in row order, exactly the files of the kept rows |
| Dataset.Convert | dataset.py:54-97 | the files written are exactly those of the kept rows, one per row, in order |
| Dataset.ExpectedFileAt | dataset.py:76-97 | file `j` goes into the folder of row `j`'s label, under that row's name, with that row's content |
| Dataset.FallbackCountStep | dataset.py:80 | the counter of a label grows by one exactly on a row of that label without a usable ID |
| Dataset.CounterNameInjective | dataset.py:81 | different counter values give different file names |
| Dataset.CounterNamesDistinct | dataset.py:76-81 | two counter-named rows of one label get different names |
| Dataset.CounterFilesDistinct | dataset.py:76-83 | two counter-named files of one label land in the same folder under different names, so neither overwrites the other |
| Dataset.MissingIdsCollide | dataset.py:58 | as written, two different rows of one label without an ID are both named `<label>_nan.txt` |
| Dataset.MissingIdsDistinct | dataset.py:58 | with the fill applied first, two rows of one label without an ID get different names |
| TextFeatures.StripTags | backend/app.py:47 | never longer than the input; text without `<` is unchanged |
| TextFeatures.StripTagsDropsTag | backend/app.py:47 | a complete `<...>` tag with a non-empty inside is removed |
| TextFeatures.StripTagsKeepsOpenBracket | backend/app.py:47 | a `<` with no later `>` is kept |
| TextFeatures.BlankOthers | backend/app.py:48 | same length; `[a-z0-9]` and whitespace characters are kept, every other character becomes a space, and a character changes exactly when it is neither kept nor already a space |
| TextFeatures.BlankOthersIdempotent | backend/app.py:48 | replacing twice gives the same as replacing once |
| TextFeatures.WordsAlphabet | backend/app.py:46-49 | every token before stemming is non-empty and made of `[a-z0-9]` |
| TextFeatures.DropStopwords | backend/app.py:50 | every kept token comes from the input and is not a stopword |
| TextFeatures.DropStopwordsKeeps | backend/app.py:50 | a token survives exactly when it is in the input and not a stopword |
| TextFeatures.DropStopwordsAppend | backend/app.py:50 | filtering distributes over concatenation, so token order is kept |
| TextFeatures.StemAll | backend/app.py:50 | one stem per token: entry `k` is the stem of token `k` |
| TextFeatures.CleanText | backend/app.py:45-51 | no token left after dropping stopwords gives the empty text, and a single one gives just its stem |
| TextFeatures.CleanTextTokens | backend/app.py:45-51 | splitting the cleaned text gives the stems of the non-stopword tokens in input order: stopwords go before stemming and tokens are joined by single spaces |
| TextFeatures.SchemeLength | backend/app.py:54 | 8 means the text starts with `https://`, 7 that it starts with `http://`, and 0 exactly when it starts with neither |
| TextFeatures.UrlStarts | backend/app.py:54 | the URLs found start at increasing positions, each after the end of the previous one |
| TextFeatures.UrlShape | backend/app.py:54 | each URL found starts with a scheme followed by at least one character, has no whitespace, occurs at its position, and ends at whitespace or at the end of the text |
| TextFeatures.FindUrls | backend/app.py:54 | one URL per match position; each begins with `http://` or `https://`, has at least one more character and no whitespace |
| TextFeatures.UrlFoundHere | backend/app.py:54 | a URL starting at the scan position is the next match, and the scan resumes at its end |
| TextFeatures.UrlScanSkips | backend/app.py:54 | positions where no URL starts are skipped without a match |
| TextFeatures.FirstUrlFound | backend/app.py:54 | the first URL start at or after the scan position is found, and the scan resumes at its end |
| TextFeatures.UrlPresentFound | backend/app.py:54 | a text in which some URL starts yields at least one match |
| TextFeatures.NoUrlsWithoutH | backend/app.py:54 | text without an `h` holds no URL |
| TextFeatures.DigitRun | backend/app.py:56 | the run is a maximal prefix of ASCII digits |
| TextFeatures.IsIpUrl | backend/app.py:56 | an IP URL has an ASCII digit right after its scheme |
| TextFeatures.HasSuspiciousTld | backend/app.py:57 | the URL ends with `.ru`, `.cn`, `.tk`, `.biz` or `.info` |
| TextFeatures.ContainsAt | backend/app.py:58 | a part occurring at any position is found by `in` |
| TextFeatures.ContainsFound | backend/app.py:58 | when `in` holds, the part occurs at some position; with `ContainsAt`, `in` holds exactly when the part occurs |
| TextFeatures.IsShortener | backend/app.py:58 | the URL contains `bit.ly`, `tinyurl` or `goo.gl` |
| TextFeatures.CountWhere | backend/app.py:56-58 | a count is at most the number of URLs, and zero exactly when no URL passes the test |
| TextFeatures.CountWhereOne | backend/app.py:56-58 | a single URL counts 1 when it passes the test and 0 otherwise |
| TextFeatures.CountWhereAppend | backend/app.py:56-58 | counts add up over concatenation; with `CountWhereOne` the count is the number of URLs that pass |
| TextFeatures.MatchAt | backend/app.py:59 | a match needs a keyword at its start; it ends at the last scheme on the keyword's line, and there is none when that line holds no scheme after the keyword |
| TextFeatures.VerifyUrgentFrom | backend/app.py:59 | the `findall` scan: a match at a position counts one and resumes after its scheme, otherwise the scan moves one position on; `VerifyUrgentStep` states each step |
| TextFeatures.UrgentNeedsKeyword | backend/app.py:59 | a positive count needs a `verify` or `urgent` at or after the scan position |
| TextFeatures.VerifyUrgentStep | backend/app.py:59 | one step of the scan moves forward, counting one match exactly when a scheme is found |
| TextFeatures.VerifyUrgentBound | backend/app.py:59 | the keyword-then-URL count is at most the number of scheme occurrences |
| TextFeatures.ExtractLinkFeatures | backend/app.py:53-60 | five counts in the source's order: the URLs found, then how many of them pass the IP test, the suspicious-TLD test and the shortener test, then the keyword-then-URL count, which is at most the number of scheme occurrences |
| TextFeatures.UrlCountPositive | backend/app.py:54-55 | a text in which a URL starts has a positive URL count |
| Backend.RequestData | backend/app.py:67 | a falsy or unparsable body becomes an empty dictionary; any other body is kept |
| Backend.EmailText | backend/app.py:68 | a falsy or missing `email` gives the empty text, a string is stripped, and a non-dictionary body raises |
| Backend.Predict | backend/app.py:63-88 | without all three artifacts the answer is 500 with the fixed message; errors are 500 or 400; a label is "Spam" or "Ham" and only comes with a loaded model |
| Backend.ModelCheckedFirst | backend/app.py:64-65 | without the artifacts the answer does not depend on the request body |
| Backend.BlankEmailRejected | backend/app.py:67-70 | a missing, falsy or whitespace-only `email` gets 400 "Missing 'email'" |
| Backend.MissingEmailOnlyWhenBlank | backend/app.py:67-70 | with a loaded model, the 400 answer comes exactly from a dictionary body whose `email` is falsy or blank |
| Backend.LabelFromClass | backend/app.py:72-88 | the label is "Spam" exactly when the classifier answers 1 on the features of the stripped text |
| Backend.PaddingIgnored | backend/app.py:68 | whitespace around the email does not change the answer |
| Backend.SameEmailSameReply | backend/app.py:67-79 | the answer depends on the body only through the stripped email text |
| Training.SubjectText | enron_perceptron_train.py:44 | a missing subject becomes the empty string |
| Training.ParseEmail | enron_perceptron_train.py:39-62 | the returned text is the subject, a newline, then the body selected part by part |
| Training.BodyWithoutHtml | enron_perceptron_train.py:47-51 | without HTML parts the body is the plain-text parts in walk order |
| Training.HtmlIgnoredOnceBodyNonEmpty | enron_perceptron_train.py:52 | once the body is non-empty, later parts add only their plain text |
| Training.HtmlFillsEmptyBody | enron_perceptron_train.py:52-54 | an HTML part met while the body is empty supplies the body |
| Training.RawsCount | enron_perceptron_train.py:97-106 | one parsed text per readable file; files that raise add nothing |
| Training.LoadFile | enron_perceptron_train.py:98-106 | one file appends one entry to each of the three lists, or nothing when parsing raises |
| Training.LoadFolder | enron_perceptron_train.py:96-106 | a folder appends the cleaned texts, link features and the folder's label for its readable files, in order |
| Training.LoadDataset | enron_perceptron_train.py:93-107 | the three lists are the ham entries followed by the spam entries, ham labelled 0 and spam 1 |
| Training.DatasetAligned | enron_perceptron_train.py:99-104 | the three lists have one length, and entry `k` of the texts and of the link features both come from parsed email `k` |
| Training.HamLabelledZero | enron_perceptron_train.py:95 | label `k` is 0 exactly when email `k` came from the ham folder |
| Training.FeatureNames | enron_perceptron_train.py:163-164 | the names are the vocabulary plus five |
| Training.StackRow | enron_perceptron_train.py:121 | a stacked row has the TF-IDF columns then the link columns |
| Training.NamesMatchColumns | enron_perceptron_train.py:121 | feature name `j` labels column `j` of the stacked matrix: vocabulary words over TF-IDF columns, the five link names over the five counts |
| Training.InsertMultiset | enron_perceptron_train.py:166 | inserting an index into the sorted order adds exactly that index |
| Training.InsertSorted | enron_perceptron_train.py:166 | inserting into an order sorted by weight keeps it sorted |
| Training.ArgSortExists | enron_perceptron_train.py:166-167 | every weight vector has an argsort: a permutation of its indices in non-decreasing weight order |
| Training.TopSizes | enron_perceptron_train.py:166-167 | both selections hold `min(15, n)` valid indices |
| Training.TopSpamLargest | enron_perceptron_train.py:166 | `top_spam` holds `min(15, n)` indices in non-increasing weight order, and no index left out weighs more than one chosen |
| Training.TopHamSmallest | enron_perceptron_train.py:167 | `top_ham` holds `min(15, n)` indices in non-decreasing weight order, and no index left out weighs less than one chosen |
| Training.Entries | enron_perceptron_train.py:170-177 | one entry per chosen index, with that feature's name and weight and the given type |
| Training.AppendEntries | enron_perceptron_train.py:170-172 | the loop appends exactly the entries of the chosen indices, in order |
| Training.FeatureImportance | enron_perceptron_train.py:161-177 | empty without weights; otherwise `2 min(15, n)` entries, the spam ones of `top_spam` first and then the ham ones, so no spam entry follows a ham entry |
| SpamAnalyzer.RequestFor | frontend/src/components/SpamAnalyzer.jsx:21-22 | nothing is sent exactly when the content is blank; otherwise what is sent is the trimmed content, which is non-empty and trims to itself |
| SpamAnalyzer.Outcome | frontend/src/components/SpamAnalyzer.jsx:31-34 | a truthy prediction of any type is kept, anything else becomes null; the confidence is kept exactly when it is a number |
| SpamAnalyzer.PredictionKept | frontend/src/components/SpamAnalyzer.jsx:32 | a non-empty string prediction is kept |
| SpamAnalyzer.NoObjectNoPrediction | frontend/src/components/SpamAnalyzer.jsx:32-33 | a response that is no object shows a null prediction and no confidence |
| SpamAnalyzer.Analyzer.constructor | frontend/src/components/SpamAnalyzer.jsx:15-18 | the state starts empty, not loading, with the mount effect's timer armed for the empty text |
| SpamAnalyzer.Analyzer.ButtonDisabled | frontend/src/components/SpamAnalyzer.jsx:74 | the button is disabled exactly while loading or while the text is blank |
| SpamAnalyzer.Analyzer.ShowResult | frontend/src/components/SpamAnalyzer.jsx:97 | the result panel shows a present result when there is no error; `CompleteSuccess` and `CompleteFailure` state when it holds |
| SpamAnalyzer.Analyzer.ShowConfidence | frontend/src/components/SpamAnalyzer.jsx:118 | the confidence shows when the result carries a number; `CompleteSuccess` states when it holds |
| SpamAnalyzer.Analyzer.IsSpam | frontend/src/components/SpamAnalyzer.jsx:49 | the panel is styled as spam when the prediction is the string "Spam"; `CompleteSuccess` states when it holds |
| SpamAnalyzer.Analyzer.Debounce | frontend/src/components/SpamAnalyzer.jsx:6-12 | any pending timer is replaced by one due a delay from now with the new value, so at most one is pending |
| SpamAnalyzer.Analyzer.SetText | frontend/src/components/SpamAnalyzer.jsx:45-47 | a changed text re-arms the timer with that text; an unchanged one leaves it alone |
| SpamAnalyzer.Analyzer.Advance | frontend/src/components/SpamAnalyzer.jsx:10 | time moves forward up to the pending timer's due tick, and nothing else changes |
| SpamAnalyzer.Analyzer.Analyze | frontend/src/components/SpamAnalyzer.jsx:20-30 | blank content clears the result and the error and sends nothing; otherwise loading is set, the error cleared and the trimmed text sent |
| SpamAnalyzer.Analyzer.Fire | frontend/src/components/SpamAnalyzer.jsx:10 | a due timer empties the slot and runs `analyze` on the value of the most recent call |
| SpamAnalyzer.Analyzer.Click | frontend/src/components/SpamAnalyzer.jsx:72-74 | an enabled button sends the trimmed text; a disabled one changes nothing |
| SpamAnalyzer.Analyzer.CompleteSuccess | frontend/src/components/SpamAnalyzer.jsx:31-39 | the result becomes the response's outcome and loading ends, the error is kept; the panel shows exactly when there is no error, the confidence exactly when the response's is a number, and the spam styling exactly when the prediction is "Spam" |
| SpamAnalyzer.Analyzer.CompleteFailure | frontend/src/components/SpamAnalyzer.jsx:35-39 | the fixed message is set, the result cleared and loading ended, so no result panel shows |
| SpamAnalyzer.LastKeystrokeWins | frontend/src/components/SpamAnalyzer.jsx:6-12 | typing twice within the delay sends only the second text, trimmed, and its answer is shown |
| MetricsPanel.Panel.constructor | frontend/src/components/MetricsPanel.jsx:19-26 | mounting starts exactly one fetch with loading set, no error and no metrics |
| MetricsPanel.Panel.FetchSucceeded | frontend/src/components/MetricsPanel.jsx:27-33 | the data is stored and loading ends |
| MetricsPanel.Panel.FetchFailed | frontend/src/components/MetricsPanel.jsx:29-33 | the fixed message is set, metrics stays null, loading ends and no report renders |
| MetricsPanel.NoReportUnlessSettledCleanly | frontend/src/components/MetricsPanel.jsx:61 | while loading, after an error, or without metrics, the report section does not render |
| MetricsPanel.ShowReport | frontend/src/components/MetricsPanel.jsx:61 | the report section renders when not loading, without an error, and with a truthy report |
| MetricsPanel.ShowMatrix | frontend/src/components/MetricsPanel.jsx:84 | the matrix passes the guard at line 84 exactly when it is an array of length 2; it renders only inside the report section (`MatrixRenders`) |
| MetricsPanel.MatrixNeedsReport | frontend/src/components/MetricsPanel.jsx:61-84 | a matrix that passes its guard still does not render when the response has no truthy classification report |
| MetricsPanel.MatrixRendersWithReport | frontend/src/components/MetricsPanel.jsx:61-84 | once settled cleanly on a response with a report, the matrix renders exactly when it is an array of length 2 |
| MetricsPanel.Index | frontend/src/components/MetricsPanel.jsx:92 | indexing fails exactly on null or undefined, and reads the element of an array |
| MetricsPanel.QuadrantCaptions | frontend/src/components/MetricsPanel.jsx:92-105 | rows are the actual class and columns the predicted one: each caption says whether the prediction was right and names the predicted class, and each of the four cells appears once |
| MetricsPanel.TableRowsFollowMatrix | frontend/src/components/MetricsPanel.jsx:124 | the table lists Ham then Spam, the order of the matrix rows |
| MetricsPanel.TwoByTwoCells | frontend/src/components/MetricsPanel.jsx:84-104 | a 2x2 matrix of numbers passes the guard and its four cells are the four numbers |
| MetricsPanel.NullRowPassesGuard | frontend/src/components/MetricsPanel.jsx:84-92 | a two-element matrix with a null row passes the guard, yet reading its first cell throws |

## Left out

- I/O is outside the model: reading the CSV with pandas, creating
  directories, writing files, the `joblib` artifacts, `results.json`, and
  the HTTP calls of `frontend/src/lib/api.js`. The conversion returns the
  files it would write. A fetch is a method call that succeeds or fails.
- The `/metrics` endpoint (backend/app.py:94-106) only reads a file and is
  not modelled.
- The numeric pipeline is not modelled: TF-IDF, `StandardScaler`,
  `train_test_split`, the perceptron, `confusion_matrix` and
  `classification_report`. At serving time it is the uninterpreted
  `classify` parameter of `Backend.Predict`.
- Floating point is not modelled:
  - the sigmoid confidence and its clamp and rounding (backend/app.py:80-91);
  - every `toFixed(1)` percentage in the front end.
  - The confidence shown is whatever number the response carries.
- Weights are exact reals, not floats.
- Library code is abstracted:
  - the Porter stemmer is a function parameter;
  - the NLTK stopword list is a set parameter, so the backend's fallback
    to an empty set (backend/app.py:39-42) is just another value of it;
  - BeautifulSoup's `get_text` is a function parameter;
  - the `email` package parser is replaced by the `Message` datatype.
- `Text.Lower` lowers ASCII letters only. Python's `lower()` also maps
  non-ASCII letters, and that is left out.
- Python's `\d` also matches non-ASCII decimal digits. The model matches
  ASCII digits only. The whitespace sets are the full ones Python's
  `isspace` and JavaScript's `trim` use.
- Training.ArgSortExists: numpy's default argsort is not stable. So the
  top-15 lemmas hold for any argsort order (`Training.IsArgSort`), and the
  stable insertion argsort only shows that one exists. Which of several
  equal weights is chosen is not modelled.
- TextFeatures.ExtractLinkFeatures: the fifth count (`verify|urgent` followed
  by a URL on the same line) is the scan `TextFeatures.VerifyUrgentFrom`,
  which follows the regex's greedy, non-overlapping search. Beyond that
  definition it is stated only as bounded by the number of scheme
  occurrences, because it is not bounded by the URL count.
- Requests in flight are never aborted. A stale response that overwrites a
  newer result is an interleaving of asynchronous completions.
  `SpamAnalyzer.Analyzer` counts outstanding requests but does not pair
  responses with requests.
- Real time is abstract ticks.
- One definition (`TextFeatures.CleanText`, `TextFeatures.ExtractLinkFeatures`)
  models both copies, backend/app.py:45-60 and enron_perceptron_train.py:67-88.
  The copies run the same steps. The training copy builds a new
  `PorterStemmer` on every call (enron_perceptron_train.py:73), and the
  backend reuses one module-level stemmer (backend/app.py:43). The backend
  falls back to an empty stopword set (backend/app.py:39-42), and training
  has no fallback (enron_perceptron_train.py:34). So the two copies agree
  only for a stateless stemmer and equal stopword sets, and only that case
  is modelled. The serving side applies the definition to the stripped
  request text, and the training side to the parsed "subject, newline,
  body" text.

## Findings

| source | as written | input that shows it | evidently intended | confidence | as-written member | corrected member |
|---|---|---|---|---|---|---|
| dataset.py:58 | `astype(str)` runs before `fillna("")`, so a missing Message ID becomes the text "nan", which is non-empty and so names the file | two rows labelled spam whose Message ID cell is empty: both are written to `spam/spam_nan.txt`, and the second overwrites the first (the same ordering at dataset.py:60 writes "Date: nan") | a missing ID is the empty string, so the row falls back to the per-label counter | high, not executed | Dataset.MissingIdsCollide | Dataset.MissingIdsDistinct |
