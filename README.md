# HR-system prescreening core, modelled in Dafny

The HR system parses and scores resumes. It keeps candidates in a SQLite table `candidates` (id, name, skills, education, certifications, experience, email, phone number, linkedin, score, status). It phones qualified candidates through Twilio and asks them a short series of questions. Then it scores the call, sets the candidate's status to "Interview Scheduled" or "Not Scheduled", and mails the candidate and HR.

This project models the decision logic of the system's parts:

- the FastAPI backend `main.py`: phone formatting, fence stripping of model replies, call scoring, the Twilio conversation endpoints, bulk prescreening and auto-processing with e-mails;
- the Streamlit app `HR_app.py`: the prescreening tab with its calls and notices, and the search/filter tab;
- the Streamlit call console `call.py`: the candidate sheet, the manual call and the slot picker;
- the React pages `Candidates.js`, `Prescreening.js` and `ResumeParser.js`, and the request helpers of `services/api.js`.

Pure rules are Dafny functions. Every such function has lemmas stating what it promises. State that the source changes in place is a Dafny `class` whose methods are specified by those functions:

- the backend's `conversations` dictionary, `prospect_name` global and candidate table;
- the Streamlit session data frame;
- the React components' state hooks;
- the axios request config.

Outside services are parameters of the operations:

- Twilio: `placed: nat -> bool` says whether the k-th dial succeeded;
- SMTP: `sent: nat -> bool` says whether the k-th mail went out, and `smtpOk` whether one status mail of the Streamlit app did;
- the OpenAI scorer: its raw reply string, or an integer score;
- HTTP replies: a value of a reply datatype.

Modules:

| file | module | models |
|---|---|---|
| base.dfy | Base | `Option` and `Result` |
| records.dfy | Records | the candidate row, the status strings and the score thresholds (70 to qualify, 7 to advance after a call) |
| text.dfy | Text | string helpers: ASCII lower-casing, trim, split/join, substring search, decimal rendering, string order and sorting |
| seqs.dfy | Seqs | order-preserving filter (`Keep`), subsequence, duplicates, counting, first-occurrence de-duplication |
| filtering.dfy | Filtering | the filter stages shared by the React candidates page and the Streamlit search tab |
| backend.dfy | Backend | pure rules of `main.py` |
| backend_server.dfy | BackendServer | the Twilio endpoints, `process_call_results` and the bulk prescreening endpoint |
| backend_emails.dfy | BackendEmails | the two auto-processing endpoints and their e-mail summaries |
| hr_app.dfy | HrApp | `HR_app.py` |
| call_console.dfy | CallConsole | `call.py` |
| candidates_page.dfy | CandidatesPage | `src/pages/Candidates.js` |
| prescreening_page.dfy | PrescreeningPage | `src/pages/Prescreening.js` |
| resume_parser_page.dfy | ResumeParserPage | `src/pages/ResumeParser.js` |
| api_client.dfy | ApiClient | `src/services/api.js` |

## Model

| member | source | states |
|---|---|---|
| Backend.CleanPhone | main.py:68-70 | keeps exactly the digits and '+' characters of the phone text |
| Backend.FormatPhone | main.py:63-83 | every formatted number starts with "+" |
| Backend.FormatPhoneNone | main.py:65-73 | no number is produced exactly when the phone is missing, "None" or "null", or holds no digit and no '+' |
| Backend.FormatPhoneKeepsDigits | main.py:63-83 | formatting only adds the 91 country code or a '+', and never loses or reorders a digit of the input |
| Backend.FormatPhoneKeepsInternational | main.py:74-76 | a number already written as '+' followed by digits comes back unchanged |
| Backend.DisplayPhone | main.py:784 | a missing or empty phone is listed as "No phone number"; any other phone is listed as its formatted form |
| Backend.StripFence | main.py:235-240 | the stripped reply is a piece of the original reply |
| Backend.StripJsonFence | main.py:235-240 | a reply fenced as ```json ... ``` yields exactly the fenced body |
| Backend.StripPlainFence | main.py:237-240 | a reply fenced as ``` ... ``` around a JSON object yields exactly the object |
| Backend.StripFenceNoFence | main.py:235-240 | an unfenced reply is left untouched |
| Backend.ClampScore | main.py:1068 | the call score is forced into 1..10, and values already in range are kept |
| Backend.ScoreCall | main.py:1036-1068 | the call score is always in 1..10; no responses gives 3; an unparsable model reply gives 5 |
| Backend.ScoreCallReadsReply | main.py:1066-1068 | a model reply that is a number in 1..10 is the call score |
| Backend.ScoreCallClamps | main.py:1066-1068 | a model reply that is any number, padded with spaces, is clamped into 1..10 |
| Backend.CallStatusForScore | main.py:1012 | the new status is "Interview Scheduled" exactly when the call score is at least 7, and "Not Scheduled" otherwise |
| Backend.Recommendation | main.py:1103 | HR is told "Proceed to next round" exactly when the call score is at least 7 |
| Backend.UnscoredCallsDoNotAdvance | main.py:1036-1068 | a call with no answers, or whose score reply cannot be read, never schedules an interview |
| BackendServer.NextStep | main.py:630-648 | the call gathers another answer exactly while the question number is below 3, and the next answer is numbered one higher; otherwise it hangs up |
| BackendServer.RecordAnswer | main.py:618-620 | an answer is appended to its own call's responses and sets that call's question count; other calls and unknown call ids are untouched |
| BackendServer.ReplayRecordsAnswers | main.py:618-620 | a run of answers to one call ends up appended in order, and nothing else changes |
| BackendServer.CallHangsUpAfterFourAnswers | main.py:609-648 | a call that started with no answers holds, after each answer, exactly the answers so far and counts them; the webhook asks for the next answer, numbered by the count held, until four are held, and then hangs up |
| BackendServer.FirstByName | main.py:994-996 | the row found for the prospect is a row of the table with that name |
| BackendServer.FirstByNameSpec | main.py:994-1000 | a row is found exactly when some row has the name; the one found is the first such row |
| BackendServer.ProcessCallResultsSpec | main.py:983-1031 | a result exists exactly when the call is known and its prospect names a row; it is for the first row with that name; its score is the call score of the recorded answers, in 1..10; its status agrees with the 7 threshold; mail goes to the row's address exactly when the address is not empty |
| BackendServer.SilentCallNotScheduled | main.py:1008-1012 | a call with no answers scores 3 and is "Not Scheduled" |
| BackendServer.CallSummaryForHr | main.py:1088-1089 | the HR summary has one numbered line per answer |
| BackendServer.StatusAgreesWithRecommendation | main.py:1074-1103 | the summary HR gets for a processed call lists the call's answers in order as "Q1: …", "Q2: …", carries the stored status and a score in 1..10, and recommends proceeding exactly when the stored status is "Interview Scheduled" |
| BackendServer.SetStatus | main.py:1015-1019 | only rows with the given id change, and only their status |
| BackendServer.ApplyCallResultChangesOnlyStatus | main.py:1015-1019 | applying a call result changes no field other than the status, and only on the scored candidate's row |
| BackendServer.BulkRows | main.py:747-796 | one result row per fetched candidate, in order; each shows whether that candidate's dial was placed |
| BackendServer.DialsFor | main.py:757-771 | every dial goes to the single verified number and carries that candidate's name as prospect |
| BackendServer.BulkReply | main.py:726-730 | the request fails exactly when no candidate ids are given |
| BackendServer.CallRows | main.py:747-812 | the loop's results, dials, and success and failure counters equal the per-candidate definitions; successes plus failures equal the rows dialled |
| BackendServer.Respond | main.py:816-825 | the response is the bulk response definition over the fetched rows |
| BackendServer.BulkRowsSpec | main.py:733-796 | the rows reported are exactly the table rows whose id was asked for, in table order; each result carries that row's id, name, address, score and display phone, reads "call initiated" exactly when its dial was placed and "call failed" otherwise, and has the new status "Interview Completed"; successes plus failures equal the results, and the total is the number of ids |
| BackendServer.BulkTotalCountsIdsNotResults | main.py:821 | `total_processed` counts the ids asked for, not the rows processed: a repeated id gives 1 row and a total of 2; an unknown id gives 0 rows and a total of 1 |
| BackendServer.BulkSummaryText | main.py:794 | the interview summary is "Call " followed by the lower-cased status, so it reads "Call call initiated" or "Call call failed" |
| BackendServer.Server.SetProspect | main.py:551-557 | the prospect becomes the posted name, "" when the key is missing, or None for a JSON null, and is echoed back; nothing else changes |
| BackendServer.Server.OutgoingCall | main.py:559-599 | a conversation is opened under the call id ("unknown" when there is none), with the current prospect and no responses; the first question is gathered |
| BackendServer.Server.HandleGather | main.py:609-651 | the answer is recorded; the call is scored and the table updated only when it hangs up |
| BackendServer.Server.BulkProcess | main.py:722-828 | an empty id list is refused; otherwise each fetched candidate is dialled in order, the prospect ends as the last one dialled, and the table and conversations are unchanged |
| BackendEmails.LetterFor | main.py:830-860 | a candidate receives the invitation letter exactly when the status is "Interview Scheduled" |
| BackendEmails.MailsFor | main.py:509-510 | one mail per entry, in order, to the entry's address and name; the invitation exactly when the entry's status is "Interview Scheduled" |
| BackendEmails.MailRecords | main.py:509-515 | one e-mail record per entry, in order, each holding that entry's address and send outcome |
| BackendEmails.SummaryFor | main.py:522-535 | e-mails sent plus e-mails failed equal the records kept |
| BackendEmails.QualifiedCount | main.py:949 | the qualified figure of the HR report never exceeds the number of entries |
| BackendEmails.QualifiedCountSpec | main.py:949 | the qualified figure is the number of entries scoring 70 or more: positive exactly when one qualifies, equal to the total exactly when all do |
| BackendEmails.ReportFor | main.py:946-949 | the report's total is the number of its rows, and its qualified figure is at most the total |
| BackendEmails.SentCountsSuccesses | main.py:523-532 | the sent count is the number of mails the mail server accepted |
| BackendEmails.ParsedEntriesSpec | main.py:490-507 | the entries mailed after a parse are exactly the successful parses with a non-blank address, in order |
| BackendEmails.ParsedEntriesHaveAddresses | main.py:498-499 | no entry without an address is mailed |
| BackendEmails.FirstRaise | main.py:499 | the first parsed result whose address is a truthy non-string (where `email.strip()` raises), and none exactly when there is no such result |
| BackendEmails.AutoProcessParsed | main.py:483-545 | when no address is a truthy non-string, the reply counts the mailable entries and summarises their mails, the HR report holds them when there is one, and each is mailed in order; otherwise the reply is the handler's error text for the first such address, no report is sent, and only the entries before it were mailed |
| BackendEmails.StoredEntriesSpec | main.py:1129-1153 | the stored candidates mailed are exactly those whose e-mail is not empty, in table order |
| BackendEmails.AutoProcessStored | main.py:1121-1183 | no mailable candidate gives the "no candidates" reply, no report and no mail; otherwise each is mailed in table order, the reply summarises the mails, and the report holds every entry with its figures |
| BackendEmails.BlankAddressDiffers | main.py:1129-1132 | an address of only spaces passes this query and is mailed, while the parse endpoint skips it (`email.strip()` at main.py line 499) |
| BackendEmails.SummaryCounts | main.py:517-535 | total, sent plus failed, and the record count agree; the HR report is marked sent only when there were entries |
| HrApp.PyPrefix | HR_app.py:258 | Python slicing `text[:n]`: a prefix, of length n clipped to the text, and counted from the end when n is negative |
| HrApp.TruncateText | HR_app.py:257-258 | text within the limit is kept; longer text is cut to the limit and ends with "..." |
| HrApp.MinQuestionsAnsweredSpec | HR_app.py:292-297 | enough questions were answered exactly when two listed positions hold non-empty questions that occur in the transcript (a question listed twice counts twice) |
| HrApp.StatusForScore | HR_app.py:374 | the status is "Interview Scheduled" exactly when the score is at least 70 |
| HrApp.FilterTabRaises | HR_app.py:536-547 | the tab fails with TypeError exactly when a real skill token is given and some row left by the search has no skills, and with KeyError exactly when the frame is not empty, a skill text is given and the search keeps no row; it fails in no other case |
| HrApp.SearchEmptied | HR_app.py:536-540 | the search leaves no row exactly when the frame is empty or a search text matches no row |
| HrApp.NoMatchThenSkillFilterRaises | HR_app.py:536-547 | a search that matches no row followed by a skill filter makes the tab fail with KeyError |
| HrApp.FilterTabKeeps | HR_app.py:536-550 | when the filter succeeds, it keeps exactly the rows that pass all four stages, in order |
| HrApp.PyPipelineIsConjunction | HR_app.py:536-550 | the stage-by-stage filtering equals one filter by the conjunction of the stages |
| HrApp.FilterTabSpec | HR_app.py:536-550 | the result is a subsequence of the rows, and a row is in it exactly when it passes every stage |
| HrApp.FiltersAgreeWhenSkillsPresent | HR_app.py:536-550 | when every row has skills, the Streamlit filter gives the React filter's rows, except that it fails with KeyError where a skill text is given and the search empties a non-empty frame, and there the React filter shows no row |
| HrApp.CommaOnlySkillFilterDiffers | HR_app.py:541 | with skill filter "," a row without skills is kept by Streamlit and dropped by React |
| HrApp.PyStatusOptionsRaises | HR_app.py:532 | sorting the status choices fails exactly when some status is missing and another is present; otherwise "All" comes first |
| HrApp.PyStatusOptionsSorted | HR_app.py:532 | with every status present, the choices after "All" are the distinct statuses, sorted and without repeats |
| HrApp.StatusChoicesAgree | HR_app.py:532 | with every status present and not empty, the Streamlit and React status choices hold the same statuses |
| HrApp.CallAttemptStatus | HR_app.py:173-195 | a call is initiated exactly when the prospect post succeeds, the phone starts with "+" and the dial succeeds; any other case gives the invalid-phone text or the error text |
| HrApp.EmailDecision | HR_app.py:466-494 | the cleared letter is requested exactly when all six conditions hold; the missed-call letter exactly when no call was initiated; otherwise no request, and never "not selected" |
| HrApp.Selection | HR_app.py:447 | the rows to call are, in order, exactly those with score of at least 70 not yet called |
| HrApp.AfterCalls | HR_app.py:198-202 | calling keeps the number of rows |
| HrApp.AfterCallsMarks | HR_app.py:198-202 | calling changes no field but `called`; it never clears a `called` flag, and it sets the flag of every called row |
| HrApp.ReselectionIsEmpty | HR_app.py:447-452 | after the calls, selecting again on the same frame yields no row |
| HrApp.CallMails | HR_app.py:466-494 | at most one letter request per call; none is "not selected"; each is addressed to a called candidate |
| HrApp.NotSelectedMails | HR_app.py:497-505 | every row with score below 70 whose address was not called gets a "not selected" request, and every request comes from such a row |
| HrApp.CalledCandidatesNotToldNotSelected | HR_app.py:451-505 | a candidate who was called never also receives the "not selected" notice |
| HrApp.SendStatusEmail | HR_app.py:224-240 | a status mail reaches the SMTP server exactly when its address is present, not empty and contains '@', and is sent exactly when it also is accepted there |
| HrApp.DeliveredMails | HR_app.py:224-226 | the guard keeps exactly the requests whose address is usable, in order |
| HrApp.NoticesDelivered | HR_app.py:497-505 | a "not selected" notice reaches the SMTP server exactly for the rows scoring below 70, not called, whose address contains '@' |
| HrApp.PrescreeningTab.ConductInterviewCall | HR_app.py:123-204 | returns the attempt status; marks every row sharing the candidate's address as called when the address is not empty |
| HrApp.PrescreeningTab.CallSelected | HR_app.py:449-494 | one call marks the selected row and its address as called and yields that call's letter |
| HrApp.PrescreeningTab.CallAll | HR_app.py:449-494 | the loop leaves the frame, the called addresses and the letters equal to their definitions over the whole selection |
| HrApp.PrescreeningTab.Run | HR_app.py:438-510 | the tab calls exactly the selection, requests the call letters then the not-selected notices, hands on those whose address passes the mail guard, and attempts the HR report when the frame is not empty |
| HrApp.NotifyNotCalled | HR_app.py:497-505 | the notice loop sends exactly the not-selected notices |
| CallConsole.Normalised | call.py:35 | loading removes every space from the phone and keeps name and score |
| CallConsole.LoadedSpec | call.py:30-36 | the sheet loaded holds exactly the rows with score of at least 50 and a phone other than "N/A", normalised, in order |
| CallConsole.LoadCandidates | call.py:30-36 | the array filled equals the loaded sheet |
| CallConsole.FirstNamed | call.py:130 | the row picked by name is a row with that name; none is found only when no row has the name |
| CallConsole.FirstNamedIsFirst | call.py:130 | the row picked is the first row with that name (`iloc[0]`): every row before it has another name |
| CallConsole.Prospect | call.py:128-135 | with no pick the typed name and number are used; with a pick the prospect is the picked name and the number is the phone of the first row with that name ("" when it has none), and there is no prospect exactly when no row has the name |
| CallConsole.CallButton | call.py:138-147 | a call is attempted exactly when both name and number are not empty; otherwise the error text is shown |
| CallConsole.BlankPhoneRefused | call.py:33-35 | a phone of only spaces passes the sheet filter but becomes empty, so the call button (call.py line 139) refuses it |
| CallConsole.MakeCall | call.py:40-62 | success exactly when set-prospect answers 200 and the dial succeeds; each failure gives its own message |
| CallConsole.SlotOptions | call.py:223 | one label per open slot, in order |
| CallConsole.SlotIdRoundTrip | call.py:223-226 | for a datetime and id without the marker, the id read back from a slot's label is the slot's id |
| CallConsole.BookingPicksOfferedSlot | call.py:223-226 | booking the k-th option books the id of the k-th open slot |
| CallConsole.DatetimeEndingInMarkerLosesId | call.py:226 | a datetime ending in "ID:" makes the booked id come back empty |
| CandidatesPage.FilterIsConjunction | src/pages/Candidates.js:81-113 | the four stages applied in turn equal one filter by their conjunction |
| CandidatesPage.FilterSpec | src/pages/Candidates.js:81-113 | the filtered list is a subsequence of the candidates, and holds exactly those that pass every stage |
| CandidatesPage.DefaultCriteriaKeepAll | src/pages/Candidates.js:45-113 | the initial criteria keep every candidate scored 0..100 |
| CandidatesPage.MissingSkillsExcluded | src/pages/Candidates.js:93-99 | any skill filter drops a candidate without skills, even an empty token |
| CandidatesPage.StatusOptionsSpec | src/pages/Candidates.js:194 | "All" first, then each non-empty status once, in order of first appearance |
| CandidatesPage.ScoreColorBands | src/pages/Candidates.js:175-181 | the colour band never falls as the score rises, and it is warning or better exactly for qualifying scores |
| CandidatesPage.StatusColor | src/pages/Candidates.js:183-192 | success exactly for "Interview Scheduled", default exactly for "Not Scheduled", info otherwise |
| CandidatesPage.CandidatesView.ApplyFilters | src/pages/Candidates.js:59-113 | the shown list becomes the filter of the candidates by the criteria |
| CandidatesPage.CandidatesView.SetCandidates | src/pages/Candidates.js:63-79 | the fetched list replaces the candidates and is re-filtered |
| CandidatesPage.CandidatesView.SetSearchName | src/pages/Candidates.js:45-61 | only the search criterion changes, and the list is re-filtered |
| CandidatesPage.CandidatesView.SetFilterSkill | src/pages/Candidates.js:46-61 | only the skill criterion changes, and the list is re-filtered |
| CandidatesPage.CandidatesView.SetScoreRange | src/pages/Candidates.js:47-61 | only the score range changes, and the list is re-filtered |
| CandidatesPage.CandidatesView.SetFilterStatus | src/pages/Candidates.js:48-61 | only the status criterion changes, and the list is re-filtered |
| PrescreeningPage.EligibleSpec | src/pages/Prescreening.js:62 | the eligible list holds exactly the candidates scored at least 70 whose status is "Interview Scheduled", in order |
| PrescreeningPage.Ids | src/pages/Prescreening.js:95 | the ids of the shown candidates, position by position |
| PrescreeningPage.ToggledMembership | src/pages/Prescreening.js:83-89 | toggling flips the membership of that id and no other |
| PrescreeningPage.ToggledNoDup | src/pages/Prescreening.js:83-89 | toggling never creates a duplicate selection |
| PrescreeningPage.ToggleTwiceRestores | src/pages/Prescreening.js:83-89 | ticking then unticking an id restores the selection |
| PrescreeningPage.UntickTwiceKeepsIds | src/pages/Prescreening.js:83-89 | unticking then ticking keeps the same ids, with that id moved to the end |
| PrescreeningPage.SelectAllSpec | src/pages/Prescreening.js:91-97 | select-all clears when everything shown is selected and selects every shown id otherwise; pressing it twice gives back all or nothing |
| PrescreeningPage.RunRequest | src/pages/Prescreening.js:99-121 | a request is sent exactly when something is selected and a job is chosen; otherwise the matching warning is shown |
| PrescreeningPage.CallStatusColor | src/pages/Prescreening.js:167-178 | success, error and warning for "Call initiated", "Failed" and "Skipped"; info otherwise |
| PrescreeningPage.IconMatchesChip | src/pages/Prescreening.js:154-178 | the status icon always has the same colour as the status chip |
| PrescreeningPage.FailedCallsShowAsInfo | src/pages/Prescreening.js:167-178 | a failed dial from the backend shows in the info colour, because "Call failed" is not "Failed" |
| PrescreeningPage.PrescreeningView.SetFetched | src/pages/Prescreening.js:56-69 | the list shown becomes the eligible candidates |
| PrescreeningPage.PrescreeningView.ToggleCandidate | src/pages/Prescreening.js:83-89 | the selection becomes the toggled selection |
| PrescreeningPage.PrescreeningView.ToggleAll | src/pages/Prescreening.js:91-97 | the selection becomes the select-all result |
| PrescreeningPage.PrescreeningView.RunCalls | src/pages/Prescreening.js:99-137 | the request follows the run guards, and the selection is cleared only after an accepted request |
| ResumeParserPage.RemoveAt | src/pages/ResumeParser.js:272-274 | removing index i drops exactly that file and keeps the others in order; an index out of range changes nothing |
| ResumeParserPage.RemoveLastDropped | src/pages/ResumeParser.js:272-274 | removing a file just added restores the list |
| ResumeParserPage.RemoveAtIsSubsequence | src/pages/ResumeParser.js:272-274 | removal adds no file and shortens the list by one exactly when the index is valid |
| ResumeParserPage.ParseRequest | src/pages/ResumeParser.js:104-131 | ignored while loading; submitted exactly when a job is chosen and some file is not empty, with only the files that are not empty |
| ResumeParserPage.ParsedCandidatesSpec | src/pages/ResumeParser.js:146-148 | the candidates shown are exactly those of the successful results, one per success |
| ResumeParserPage.DownloadCsv | src/pages/ResumeParser.js:224-242 | no file is produced exactly when there are no candidates |
| ResumeParserPage.CsvLineReadsBack | src/pages/ResumeParser.js:230-241 | a candidate without quotes or line breaks reads back field by field from its CSV line |
| ResumeParserPage.HeaderReadsBack | src/pages/ResumeParser.js:227-229 | the header line reads back as the ten column names |
| ResumeParserPage.DownloadCsvReadsBack | src/pages/ResumeParser.js:224-242 | the file splits into the header and one line per candidate, each reading back as its fields |
| ResumeParserPage.QuoteInValueBreaksLine | src/pages/ResumeParser.js:230-241 | a quote inside a value is not escaped, so the line no longer reads back |
| ResumeParserPage.CallButtonEnabledSpec | src/pages/ResumeParser.js:294 | the call button (disabled at line 558) is enabled exactly when no call run is in progress and some candidate scores at least 70 |
| ResumeParserPage.ScoreColorsAgree | src/pages/ResumeParser.js:276-282 | the parser page colours scores exactly as the candidates page does |
| ResumeParserPage.StatusColor | src/pages/ResumeParser.js:284-286 | success exactly for "Interview Scheduled", default otherwise |
| ResumeParserPage.CallStatusColor | src/pages/ResumeParser.js:288-292 | success for "Call initiated", error for other text containing "Failed", default otherwise |
| ResumeParserPage.FailedCallNotRed | src/pages/ResumeParser.js:288-292 | a failed dial from the backend is shown in the default colour, since "Call failed" does not contain "Failed" |
| ResumeParserPage.ResumeParserView.OnResumeDrop | src/pages/ResumeParser.js:70-84 | dropped files are appended to the list |
| ResumeParserPage.ResumeParserView.RemoveFile | src/pages/ResumeParser.js:272-274 | the file list becomes the list with that index removed |
| ResumeParserPage.ResumeParserView.StartParse | src/pages/ResumeParser.js:104-124 | the parse follows the guards, and loading is set only when a request is submitted |
| ResumeParserPage.ResumeParserView.FinishParse | src/pages/ResumeParser.js:142-182 | a reply replaces the candidates with the successful parses and clears the files; loading always ends |
| ApiClient.WithAuth | src/services/api.js:21-29 | a token that is not empty sets the bearer Authorization header; every other header is kept |
| ApiClient.LatestTokenWins | src/services/api.js:21-29 | a configuration that passes the interceptor twice carries the later token when one is stored; when the token was removed in between, the earlier bearer header stays |
| ApiClient.WithAuthPresence | src/services/api.js:21-29 | Authorization is present exactly when a token exists or it was already there; at most one header is added |
| ApiClient.RequestConfig.Intercept | src/services/api.js:21-29 | the config headers become the authorised headers |
| ApiClient.HandleApiError | src/services/api.js:179-199 | a server reply gives its status and message (or the default); no reply gives the network error with status 0; anything else gives status -1; the message is never empty |
| ApiClient.StatusClassifies | src/services/api.js:179-199 | the status tells the three error kinds apart |

## Left out

- LLM calls: resume extraction and scoring, job-description parsing, interview generation, `generate_ai_response` and `analyze_conversation` are not modelled. Their text replies are inputs. `llm_score_transcript` in `HR_app.py` is an integer input, although `HR_app.py` never defines it (see the `HrApp.PrescreeningTab.Run` line below).
- Twilio, SMTP, SQLite, HTTP, the Excel report and the CSV/PDF/DOCX readers are not modelled. A dial or mail outcome is an oracle. A table is a sequence of rows in table order, and SQL `fetchone()` returns the first matching row.
- The TwiML text and speech prompts are not modelled; only the gather/hang-up decision is.
- The per-candidate `except` branch of the bulk endpoint (`main.py:798-812`) cannot occur in the model, because a dial's failure is already the `placed` oracle's answer.
- `conversations` and `prospect_name` are shared by concurrent requests in the source. The model runs requests one at a time. `BulkProcess` states the final prospect and records each dial's prospect in its `Dial` list.
- Async scheduling, timeouts, loading spinners, snackbars and the rendering of the React pages and the Streamlit widgets are not modelled.
- `JobDescription.js`, `Analytics.js`, `App.js`, `Candidates_DB.py` and `test_call.py` are not part of this model.
- Text is ASCII: `lower()`/`toLowerCase()` change only A-Z and `isdigit` means 0-9. `strip`/`trim` remove only space, tab, line feed, carriage return, vertical tab and form feed. Python's `str.strip` also removes 0x1C-0x1F, 0x85, 0xA0 and the other Unicode spaces. JavaScript's `trim` also removes 0xA0, 0xFEFF and the Unicode spaces.
- Scores are integers, though the table stores REAL scores.
- A NaN cell of the data frame is a missing value.
- A job id of 0 counts as no job chosen, as in JavaScript.
- HrApp.FilterTabSpec: pandas `str.contains` treats the search text as a regular expression and matches without case. The model matches it as a literal substring without case, so regex metacharacters are not modelled.
- CallConsole.LoadCandidates: pandas may read the Phone column as numbers; the model reads every phone as text.
- ResumeParserPage.DownloadCsv: a missing score is written as 0 by the page (`score || 0`); the model's score is never missing.
- BackendEmails.AutoProcessStored: the query also requires `score IS NOT NULL` (main.py:1131). A model score is never NULL, so no row is ever left out for that reason.
- BackendEmails.AutoProcessParsed: a parse whose `score` is a JSON null keeps None (main.py:463). That None would then be compared with 70 in the report (main.py:949). A model score is never missing, so this path is not modelled.
- CandidatesPage.FilterCandidates: a missing score is not representable. React compares `null` with the score bounds as 0, while pandas compares NaN as false and drops the row. Both filters here see an integer score.
- HrApp.PyPipeline: the text columns hold strings or nothing. A number or other non-string cell, which pandas' `.str` accessor turns into NaN, is not modelled.
- HrApp.PrescreeningTab.Run: `delivered` lists the mails that pass the address guard. Whether the SMTP server then accepts each one is left to `SendStatusEmail`'s `smtpOk` input, per mail.
- HrApp.ReselectionIsEmpty: a Streamlit rerun with the uploads still present rebuilds the frame from the files with every `called` flag False (HR_app.py:348-377), and the tab then calls everyone again. Reruns are not modelled; the lemma is about the same frame.
- HrApp.Deliverable: the `isinstance(candidate_email, str)` test of `send_candidate_status_email` (HR_app.py:225) is not modelled, because an address in the model is always text or missing.
- HrApp.PrescreeningTab.Run: `llm_score_transcript` is neither defined nor imported in HR_app.py (its imports are HR_app.py:1-21). As written, whenever the selection is not empty, the tab stops with a NameError at HR_app.py:463 after the first selected row has been called and marked called (HR_app.py:451-457). No status mail, no not-selected notice (HR_app.py:497-505) and no HR report (HR_app.py:510) follow. With an empty selection the loop body never runs, so the notices and the report proceed as modelled. The model assumes a scorer that returns an integer; `Run`'s mails, notices and `reportAttempted` describe that assumed program.
- HrApp.CallAttemptStatus: a phone cell is text or missing. A truthy non-string phone, such as a number from the model's JSON, makes `phone.startswith` at HR_app.py:181 raise AttributeError. The status is then "Error initiating call: 'int' object has no attribute 'startswith'" rather than the invalid-phone text. The mail decision is the same missed-call letter either way.
