# USOS API Browser window, modelled in Dafny

This project models the main window of the USOS API Browser, a desktop client for
exploring the methods of a USOS API installation. The window does five things:

- **Lists the installations.** When the window opens, it asks the "mother" installation for
  the list of installations. It fills the combo box with that list plus one fixed extra
  installation, and selects the last entry. Reloading an installation switches the
  connector to the URL in the box. When the method list arrives, the URL is added to the box
  if it is not listed yet, and the installation's scopes are fetched.
- **Builds the method tree.** Each method name is split on '/'. The first piece is
  dropped and the rest are walked from the top level down. A level is searched for a node
  with the piece as its header, and a new node is added at the end when there is none. A
  method is attached only to a node created for its last piece.
- **Shows the form of the selected method.** The form has a title, a link to the method's
  documentation, and one row per argument: a label, a text box whose value is remembered
  under `method#argument`, and the typeface chosen by whether the argument is required.
  It also offers `as_user_id` for every method that accepts a token. Below the rows come
  the "Use SSL", "Sign with Consumer Key" and "Sign with Token" check boxes. The token box
  can be clicked only while the consumer box is checked.
- **Builds the call for Execute and Launch.** The call carries the non-empty argument
  boxes, the consumer pair and the token pair only when their boxes are checked, and the
  SSL choice.
- **Quick Fill.** This runs the OAuth 1.0a PIN handshake (section 2 of RFC 5849):
  - it fetches a request token with `oauth_callback=oob` and the chosen scopes, joined
    by '|';
  - it opens the authorize page in the browser;
  - it reads the PIN;
  - it exchanges the PIN for an access token.

  Each token call is tried over HTTPS and, when that fails with a network error, once
  more over plain HTTP. Each response body is split on '&', and the last `oauth_token=`
  and `oauth_token_secret=` parts win. The access pair is written into the token boxes.

Modules:

- `Basics`: Option and distinctness.
- `Catalog`: the records the connector returns.
- `Connector`: the URL a `GetURL` call would build, kept as its arguments, and the scripted
  replies of the network.
- `Text`: the .NET `Split`, `Join` and `Replace("_", "__")`, and the cache key.
- `TokenResponse`: reading a token response.
- `QuickFill`: the handshake, as a function of its inputs, with the effects it has in order.
- `MethodTree`: the tree, as a value (`Outline`) and as heap nodes (`Tree`, `Node`), with a
  ghost picture tying the two together.
- `MethodForm`: the argument form.
- `BrowserWindow`: the check boxes, the installations box, and the window's handlers.

When two methods have the same name, the tree node stays tagged with the FIRST of them,
because a node that already exists is never tagged again (`MethodTree.InsertedTwice`).
The first '/' piece of every name (`services`) is skipped and does not become a tree
level (`BrowserWindow.xaml.cs` lines 134-136).

## Model

| member | source | states |
|---|---|---|
| Text.JoinSplit | BrowserWindow.xaml.cs:134 | `Split` loses nothing: joining its pieces with the separator gives the name back |
| Text.SplitWithoutSeparator | BrowserWindow.xaml.cs:134 | a name without '/' is a single piece, so it yields no tree level |
| Text.SplitAfterPiece | BrowserWindow.xaml.cs:546 | a separator-free piece followed by the separator is split off as the first piece |
| Text.SplitJoin | BrowserWindow.xaml.cs:520 | the scope keys joined with '\|' split back into the same keys when none of them holds '\|' |
| Text.CollapseEscaped | BrowserWindow.xaml.cs:258 | an escaped label reads back in WPF as the unescaped text, whatever follows it |
| Text.EscapedHasNoAccessKey | BrowserWindow.xaml.cs:224 | `Replace("_", "__")` leaves no single underscore that WPF would take as an access key |
| Text.EscapeCollapsed | BrowserWindow.xaml.cs:224 | every text without an access-key marker is the escape of what it reads as, so escaping is onto such texts |
| Text.CacheKeyInjective | BrowserWindow.xaml.cs:271 | two cache keys `method#arg` are equal only for the same method and argument, when method names hold no '#' |
| TokenResponse.LastValue | BrowserWindow.xaml.cs:547-553 | the scan's value for a prefix is absent exactly when no part starts with it; otherwise it is the remainder of the last part that does |
| TokenResponse.ParseTokenResponse | BrowserWindow.xaml.cs:544-558 | a pair is read exactly when some part starts with `oauth_token=` and some part with `oauth_token_secret=`; the values hold no '&' |
| TokenResponse.ReadTokenResponse | BrowserWindow.xaml.cs:546-558 | the handler's loop over the '&'-parts computes exactly the parse |
| TokenResponse.PrefixesExclusive | BrowserWindow.xaml.cs:549-552 | a part is never taken as both the token and the secret |
| TokenResponse.SplitBeforePiece | BrowserWindow.xaml.cs:546 | a last separator-free piece is split off as the last piece |
| TokenResponse.ParseFormatted | BrowserWindow.xaml.cs:544-558 | a body `oauth_token=T&oauth_token_secret=S` is read back as (T, S) when neither value holds '&' |
| TokenResponse.ParseExample | BrowserWindow.xaml.cs:544-558 | the body `oauth_token=ABC&oauth_token_secret=XYZ` gives ABC and XYZ |
| TokenResponse.ParseKeepsEscapes | BrowserWindow.xaml.cs:549-552 | values are taken verbatim, with no percent-decoding, and an empty value is accepted |
| TokenResponse.LastValueAppend | BrowserWindow.xaml.cs:547-553 | a part appended at the end overrides the value of its prefix and leaves other prefixes alone |
| TokenResponse.ParseLaterTokenWins | BrowserWindow.xaml.cs:547-553 | a later `oauth_token=` part replaces an earlier one, and the secret is kept |
| TokenResponse.ParseNeedsToken | BrowserWindow.xaml.cs:554-558 | a body with no `oauth_token=` part is rejected, whatever else it holds |
| QuickFill.RequestTokenArgs | BrowserWindow.xaml.cs:517-520 | the request-token call always has `oauth_callback=oob`, and has `scopes` (the keys joined by '\|') exactly when scopes were picked |
| QuickFill.ScopesRecoverable | BrowserWindow.xaml.cs:519-520 | the server can split the `scopes` argument back into exactly the chosen keys |
| QuickFill.FetchWithFallback | BrowserWindow.xaml.cs:527-542 | the nested try/catch around one token call behaves as `TryTwice`: HTTPS first, then plain HTTP once after a network error |
| QuickFill.TryTwiceSends | BrowserWindow.xaml.cs:527-542 | one token call sends the HTTPS call and, exactly after a network error, the same call without SSL; the body read is the reply to its last try |
| QuickFill.Sent | BrowserWindow.xaml.cs:522-625 | the network calls of a run are at most its effects |
| QuickFill.SentAppend | BrowserWindow.xaml.cs:522-625 | the calls of consecutive stages are the calls of the first, then those of the second |
| QuickFill.ToPath | BrowserWindow.xaml.cs:529 | filtering calls by endpoint keeps only calls to that endpoint |
| QuickFill.ToPathAppend | BrowserWindow.xaml.cs:522-625 | filtering by endpoint distributes over consecutive stages |
| QuickFill.NoKeyNoCalls | BrowserWindow.xaml.cs:483-500 | without a consumer key, nothing is sent; at most the developer centre is opened, and only when the user agrees |
| QuickFill.CancelDoesNothing | BrowserWindow.xaml.cs:505-508 | cancelling the scope dialog ends the handler with no effect |
| QuickFill.SentLaunch | BrowserWindow.xaml.cs:567 | starting the browser sends nothing over the network |
| QuickFill.ToPathTries | BrowserWindow.xaml.cs:529-539 | the tries of one call count towards its own endpoint only |
| QuickFill.TriesToPath | BrowserWindow.xaml.cs:527-542 | one token call sends to an endpoint all of its tries when it goes there, and none otherwise |
| QuickFill.AtMostTwoAttempts | BrowserWindow.xaml.cs:522-601 | each token endpoint is called at most twice: over HTTPS first, then the very same call without SSL |
| QuickFill.TwoFailuresStop | BrowserWindow.xaml.cs:527-542 | when both tries of the request-token call fail, the run ends there with exactly those two calls and no token |
| QuickFill.UnreadableRequestStops | BrowserWindow.xaml.cs:554-558 | an unreadable request-token reply stops the run before the browser, with every call made to the request-token endpoint |
| QuickFill.AfterRequestEffects | BrowserWindow.xaml.cs:544-601 | after the request-token call, the effects are, in order: the authorize page once a pair was read, then the access-token tries once the browser started |
| QuickFill.AfterRequestFilled | BrowserWindow.xaml.cs:544-625 | the boxes are filled only when both calls gave readable pairs and the browser started, and they receive the access pair read |
| QuickFill.AfterRequestCalls | BrowserWindow.xaml.cs:560-601 | the browser goes only to the authorize page of the pair read; access-token calls carry the PIN and are signed with the consumer pair and that request pair |
| QuickFill.AccessUsesRequestPair | BrowserWindow.xaml.cs:560-601 | over the whole run: the browser is sent to the authorize page of the request token obtained, and the access call uses that request pair and the PIN |
| QuickFill.FinishFilled | BrowserWindow.xaml.cs:586-625 | a filled pair is the parse of the reply to the last call, which went to the access-token endpoint |
| QuickFill.AfterRequestLast | BrowserWindow.xaml.cs:560-625 | the same after the request-token call, counting its tries |
| QuickFill.FilledIsLastReply | BrowserWindow.xaml.cs:522-625 | the pair written into the token boxes is the parse of the reply to the run's last call, an access-token call preceded by at least one other |
| QuickFill.PlainHttpRun | BrowserWindow.xaml.cs:560-601 | once the request pair is read and the browser starts, the run continues with the access-token call signed by that pair |
| QuickFill.PlainHttpCompletes | BrowserWindow.xaml.cs:527-625 | when each HTTPS call fails and each plain HTTP call gives a readable pair, the run completes with the access pair after exactly four calls |
| QuickFill.PlainHttpExample | BrowserWindow.xaml.cs:522-625 | an installation without SSL that answers with well-formed bodies completes the handshake |
| MethodTree.DescendKeepsNodes | BrowserWindow.xaml.cs:136-157 | walking a name loses no node and only appends at the end of children lists, so siblings keep first-seen order |
| MethodTree.DescendKeepsTags | BrowserWindow.xaml.cs:148-156 | walking a name never changes the method attached to an existing node |
| MethodTree.DescendNewNodes | BrowserWindow.xaml.cs:148-156 | new nodes lie on the walked path, and only the node of the last piece gets a method |
| MethodTree.DescendLastTag | BrowserWindow.xaml.cs:151-155 | the node of the last piece carries the method exactly when the walk created it |
| MethodTree.DescendChildLists | BrowserWindow.xaml.cs:141-156 | a walk changes a children list only by appending the next piece when it was missing |
| MethodTree.DescendExisting | BrowserWindow.xaml.cs:141-147 | walking a path already in the tree changes nothing |
| MethodTree.Visit | BrowserWindow.xaml.cs:139-157 | one level: the tree is unchanged when the piece is present, and it gains that one child otherwise |
| MethodTree.DescendVisit | BrowserWindow.xaml.cs:136-157 | the walk is one visit followed by the walk of the remaining pieces, tagging only at the last piece |
| MethodTree.Inserted | BrowserWindow.xaml.cs:134-158 | adding a method keeps the tree well formed: the root is there, siblings are distinct, and parents and children exist |
| MethodTree.Built | BrowserWindow.xaml.cs:132-159 | building from a list keeps the tree well formed |
| MethodTree.InsertedReaches | BrowserWindow.xaml.cs:134-158 | after adding, the method's pieces (all but the first) name a node of the tree |
| MethodTree.InsertedWithoutSlash | BrowserWindow.xaml.cs:134-136 | a name without '/' adds nothing |
| MethodTree.InsertedTwice | BrowserWindow.xaml.cs:139-157 | adding a name a second time changes nothing: the first method keeps its node |
| MethodTree.BuiltReaches | BrowserWindow.xaml.cs:132-159 | after building, every listed method is reachable by its pieces, and no node is lost |
| MethodTree.BuiltTwo | BrowserWindow.xaml.cs:132-133 | the outer loop adds methods one at a time in list order |
| MethodTree.ModuleBeforeMember | BrowserWindow.xaml.cs:148-156 | a module that is itself a method, listed before its member, keeps its method and gets the member as a child |
| MethodTree.MemberBeforeModule | BrowserWindow.xaml.cs:141-148 | a module name listed after one of its members finds its node already there, and that node stays without a method |
| MethodTree.SiblingsInListOrder | BrowserWindow.xaml.cs:156 | two new children of the same node appear in list order, after the existing ones |
| MethodTree.AppendsOneChild | BrowserWindow.xaml.cs:148-157 | a method one level below an existing node, with a new last piece, appends exactly that child |
| MethodTree.Tree.constructor | BrowserWindow.xaml.cs:108-159 | a new tree view, before any `RefreshTree`, is empty and valid |
| MethodTree.Tree.Clear | BrowserWindow.xaml.cs:637 | `Items.Clear()` leaves only the tree view itself, showing the empty outline |
| MethodTree.Tree.FindChild | BrowserWindow.xaml.cs:141-147 | the scan over one level finds an item exactly when some item has the piece as its header, and returns such an item |
| MethodTree.Tree.AddChild | BrowserWindow.xaml.cs:150-156 | appending a new item changes the outline by exactly `Grow`, and the item stands at its path |
| MethodTree.Tree.Step | BrowserWindow.xaml.cs:138-157 | one iteration of the inner loop performs `Visit` on the heap, and the rest of the walk is unaffected |
| MethodTree.Tree.Insert | BrowserWindow.xaml.cs:134-158 | adding a method to the item tree changes what it shows by exactly `Inserted` |
| MethodTree.Tree.Refresh | BrowserWindow.xaml.cs:108-159 | `RefreshTree` returns false and leaves the tree alone when the list cannot be fetched; otherwise it returns true and the tree shows `Built` of the list |
| MethodForm.FormArguments | BrowserWindow.xaml.cs:240-242 | the form's arguments are the described ones in order, then `as_user_id` (not required) unless the method ignores tokens |
| MethodForm.AsUserIdOffered | BrowserWindow.xaml.cs:240-243 | an `as_user_id` box is offered exactly when the method takes a token or describes that argument itself |
| MethodForm.FieldFor | BrowserWindow.xaml.cs:254-271 | a row belongs to its argument and is typeset as required exactly when the argument is required |
| MethodForm.LabelReadsBack | BrowserWindow.xaml.cs:258 | a label reads in WPF as the argument's name and a colon, with no access key |
| MethodForm.CacheKeysDistinct | BrowserWindow.xaml.cs:271 | rows of different arguments or methods never share a remembered value |
| MethodForm.ArgumentForm.constructor | BrowserWindow.xaml.cs:179 | the form starts empty |
| MethodForm.ArgumentForm.Clear | BrowserWindow.xaml.cs:192-193 | a change of selection removes every row and box |
| MethodForm.ArgumentForm.Show | BrowserWindow.xaml.cs:218-281 | the title is the escaped brief description, the link is the reference URL, and the rows and boxes are those of `RowsOf` over the form's arguments |
| MethodForm.ArgumentForm.Type | BrowserWindow.xaml.cs:265-266 | typing into a box changes only that box |
| MethodForm.ArgumentForm.GetMethodArgs | BrowserWindow.xaml.cs:397-408 | the arguments are exactly the boxes with non-empty text |
| MethodForm.RowsOf | BrowserWindow.xaml.cs:243-281 | the rows made number at most the arguments, and the form is complete exactly when every argument got a row |
| MethodForm.BuildRows | BrowserWindow.xaml.cs:243-281 | the handler's loop makes exactly the rows of `RowsOf`, stopping where `Dictionary.Add` throws |
| MethodForm.RowsStop | BrowserWindow.xaml.cs:276 | an argument whose name already has a box ends the form there, and no later row is made |
| MethodForm.RowsInOrder | BrowserWindow.xaml.cs:243-280 | the rows made are those of the first arguments, in order |
| MethodForm.BoxesOfRows | BrowserWindow.xaml.cs:265-276 | there is one box for each row's argument name, holding its remembered value |
| MethodForm.RowsDistinct | BrowserWindow.xaml.cs:276 | the arguments that got rows have distinct names |
| MethodForm.RowsStopAtRepeat | BrowserWindow.xaml.cs:276 | an incomplete form stops at the first argument whose name repeats an earlier one |
| MethodForm.FormCompleteIffDistinct | BrowserWindow.xaml.cs:243-281 | the form is built in full exactly when the argument names are distinct |
| MethodForm.AsUserIdListedTwice | BrowserWindow.xaml.cs:240-276 | a method that does not ignore tokens and lists `as_user_id` itself gets it twice, so `Dictionary.Add` throws on the repeat and its form is never complete |
| MethodForm.FilledIn | BrowserWindow.xaml.cs:397-408 | the arguments sent are the boxes with non-empty text, with their text |
| MethodForm.TypingChangesOneArgument | BrowserWindow.xaml.cs:400-406 | typing into a box adds, updates or (when emptied) removes just that argument |
| BrowserWindow.Signing.constructor | BrowserWindow.xaml.cs:289-302 | the boxes are created unchecked, with the token box disabled |
| BrowserWindow.Signing.Restore | BrowserWindow.xaml.cs:289-305 | the remembered states are set, and the token box is enabled exactly when the consumer box is checked; the rule holds exactly when a remembered token is not without a consumer |
| BrowserWindow.Signing.ClickConsumer | BrowserWindow.xaml.cs:362-375 | checking enables the token box; unchecking unchecks and disables it; the rule holds afterwards |
| BrowserWindow.Signing.ClickToken | BrowserWindow.xaml.cs:301-302 | a disabled token box ignores the click, and the rule is kept |
| BrowserWindow.Signing.ClickSsl | BrowserWindow.xaml.cs:289-290 | the SSL box toggles and nothing else changes |
| BrowserWindow.GatedCall | BrowserWindow.xaml.cs:415-427 | the call goes to the method with its arguments and the SSL choice |
| BrowserWindow.TokenOnlyWithConsumer | BrowserWindow.xaml.cs:415-427 | under the check-box rule, a call carries the token pair only together with the consumer pair, and with the consumer box unchecked it is unsigned |
| BrowserWindow.Installations.constructor | BrowserWindow.xaml.cs:35-36 | the combo box starts empty; Quick Fill starts disabled, which is assumed (its initial state is set outside the code-behind) |
| BrowserWindow.Installations.Load | BrowserWindow.xaml.cs:35-77 | the connector starts on the mother installation; on success the box lists the fetched URLs in order, then the extra one, which is selected; on a network error it stays empty |
| BrowserWindow.Installations.BeginReload | BrowserWindow.xaml.cs:637-645 | Quick Fill is disabled and the connector uses the URL in the box; it is switched (counted in `switches`) exactly when that URL differs from the one in use |
| BrowserWindow.Installations.EndReload | BrowserWindow.xaml.cs:649-670 | the scopes are the fetched ones, the URL in use is added when missing, and Quick Fill is enabled |
| BrowserWindow.OnTheList | BrowserWindow.xaml.cs:655-661 | the scan of the whole box finds the URL exactly when it is listed |
| BrowserWindow.WithInstallation | BrowserWindow.xaml.cs:655-669 | the URL is listed afterwards, and it is added once exactly when it was missing |
| BrowserWindow.WithInstallationIdempotent | BrowserWindow.xaml.cs:655-669 | reloading the same installation again adds nothing |
| BrowserWindow.WithInstallationKeepsDistinct | BrowserWindow.xaml.cs:655-669 | a list without repeats keeps none, and its old entries keep their order |
| BrowserWindow.Window.constructor | BrowserWindow.xaml.cs:35-36 | the window starts with an empty tree, no selection and the check-box rule in force |
| BrowserWindow.Window.SelectItem | BrowserWindow.xaml.cs:186-332 | the old form is cleared, leaving no title or link when no method is selected; for a method, the title is its escaped brief description, the link its reference URL, and the rows the `RowsOf` of its arguments; the check boxes are restored and the Execute and Launch buttons shown exactly when the form completed |
| BrowserWindow.Window.GetMethodCall | BrowserWindow.xaml.cs:415-427 | Execute and Launch, which exist only on a completed form, use the selected method, the non-empty boxes, and the credentials gated by the check boxes |
| BrowserWindow.Window.QuickFill | BrowserWindow.xaml.cs:481-633 | the handler does what `Flow` says; the consumer boxes never change; the token boxes receive the access pair exactly when the run fills them |
| BrowserWindow.Window.FinishQuickFill | BrowserWindow.xaml.cs:544-625 | the handler after the request-token call does what `AfterRequest` says, writing the token boxes only on success |
| BrowserWindow.Window.ReloadTree | BrowserWindow.xaml.cs:637-648 | the tree is emptied, which drops the selection and empties the form and its buttons; when the method list arrived, the tree shows `Built` of it |
| BrowserWindow.Window.ReloadInstallation | BrowserWindow.xaml.cs:635-672 | the selection and the form are dropped; the connector uses the URL in the box, switching only when it differs; on success the tree is rebuilt, the scopes taken, the URL listed and Quick Fill enabled; on failure Quick Fill stays disabled and the list and scopes are unchanged |

## Left out

- The WPF layout is not modelled: panels, fonts, sizes, margins, tool tips, the results
  text box, `getScrollViewerHeight`, the busy cursor (`apiConnector_BeginRequest`,
  `apiConnector_EndRequest`) and the start-up message box. A message box is modelled only
  by where the handler stops.
- Dialogs, the browser and the network are inputs:
  - the "register a key?" answer;
  - the scope dialog, which is None when it is cancelled;
  - the PIN;
  - whether `Process.Start` succeeds;
  - a script of replies for successive `GetResponse` calls.
- `ApiConnector` is not part of this model. A URL is represented by the arguments of its
  `GetURL` call. OAuth signing, nonces, timestamps and percent-encoding are not modelled.
- `GetURL`'s optional arguments are assumed to default to no consumer pair, no token pair
  and no SSL (`Connector.Unsigned`).
- `GetMethods`, `GetMethod`, `GetInstallations` and `GetScopes` are represented by their
  results, which are inputs.
- `Window.SelectItem` takes the description `GetMethod` returns for the selected method's
  name as an input, and assumes that it is a fresh object. If the connector returned a
  cached object, the `arguments.Add` on line 242 would add a second `as_user_id` on the
  next selection.
- Window.SelectItem: when two form arguments share a name, `methodArgumentsTextboxes.Add`
  on line 276 throws, and the selection handler does not catch the exception, so what
  happens next depends on application-level handling that is not part of this model. The
  model ends the handler there with `ok == false`: the rows made so far stay, the check
  boxes are not restored, no buttons are shown, and the window stays usable. This happens
  with or without caching: a method that does not ignore tokens and lists `as_user_id`
  itself gets a second one from line 242 (`MethodForm.AsUserIdListedTwice`).
- `VarsCache` is not part of this model. The remembered box values and check-box states
  are inputs to `Window.SelectItem`. The credential boxes' remembered values are the
  arguments of `Credentials`.
- The check-box rule can fail on one path. When the cache restores "sign with token" as
  checked while "sign with consumer key" is unchecked, the restored state breaks the rule.
  `Signing.Restore` states exactly when the rule holds.
- `executeButton_click` and `browserButton_click` are modelled only through the call they
  build (`Window.GetMethodCall`). The JSON pretty-printing and the display of the result
  are not modelled.
- `methodDescriptionLink_Click` only hands the link to the browser. The model keeps the
  link (`ArgumentForm.Show`) but does not model the click.
- The node expansion after `RefreshTree` is not modelled, and neither is its selection of
  `oauth/request_token` (lines 164-175), which would show that method's form. In the model,
  a reload ends with no selection and an empty form (`Window.ReloadTree`,
  `Window.ReloadInstallation`).
- The combo box's drop-down flag and its selection-changed handler are not modelled. The
  handler's only action is commented out.
- Pressing Enter and the refresh button both call `ReloadInstallation`. They are not
  modelled separately.
- Window.ReloadInstallation: the source clears the tree first and then switches the
  connector. The model clears the tree just before rebuilding it. The two steps touch
  disjoint state, so the final state is the same.
- `GetScopes` throws exceptions that the handler does not catch. The model always
  receives a scope list.
- Exceptions other than `WebException` inside Quick Fill are not modelled. Every network
  failure is a `NetworkError` reply.
- `StartsWith` in .NET compares using the current culture. The model uses an ordinal
  prefix test.
- Strings are sequences of characters. No Unicode normalisation is modelled.
- `Split` and `Join` follow .NET for a single-character separator only.
