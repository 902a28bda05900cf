/** The browser window: the credential boxes, the "sign with" check boxes, the form of
    the selected method, the list of API installations and the tree of methods, with
    the event handlers that change them. */
module BrowserWindow {
  import opened Basics
  import opened Text
  import opened Catalog
  import opened Connector
  import opened TokenResponse
  import opened QuickFill
  import opened MethodTree
  import opened MethodForm

  /** The installation asked for the list of all installations when the window opens. */
  const MotherInstallation := "http://apps.usos.edu.pl/"
  /** An installation the window always offers, after the ones the list gives. */
  const ExtraInstallation := "https://usosapi.ath.bielsko.pl/"

  /** The four credential text boxes. */
  class Credentials {
    var consumerKey: string
    var consumerSecret: string
    var token: string
    var tokenSecret: string

    constructor(consumerKey: string, consumerSecret: string, token: string, tokenSecret: string)
      ensures this.consumerKey == consumerKey && this.consumerSecret == consumerSecret
      ensures this.token == token && this.tokenSecret == tokenSecret
    {
      this.consumerKey := consumerKey;
      this.consumerSecret := consumerSecret;
      this.token := token;
      this.tokenSecret := tokenSecret;
    }
  }

  /** The "Use SSL", "Sign with Consumer Key" and "Sign with Token" check boxes, and
      whether the last one can be clicked. */
  class Signing {
    var useSsl: bool
    var withConsumer: bool
    var withToken: bool
    var tokenEnabled: bool

    /** The rule the handlers keep: the token box can be clicked exactly when the
        consumer box is checked, so a request is never signed with a token alone. */
    predicate Rule()
      reads this
    {
      (tokenEnabled <==> withConsumer) && (withToken ==> withConsumer)
    }

    constructor()
      ensures !useSsl && !withConsumer && !withToken && !tokenEnabled
      ensures Rule()
    {
      useSsl := false;
      withConsumer := false;
      withToken := false;
      tokenEnabled := false;
    }

    /** The boxes of a newly shown form. They are created unchecked, the token box
        disabled, and then set to the remembered states: checking the consumer box
        enables the token box, while the token box is set whether it is enabled or
        not. The rule holds afterwards exactly when the remembered states keep it. */
    method Restore(ssl: bool, consumer: bool, token: bool)
      modifies this
      ensures useSsl == ssl && withConsumer == consumer && withToken == token
      ensures tokenEnabled == consumer
      ensures Rule() <==> (token ==> consumer)
    {
      useSsl := ssl;
      withConsumer := false;
      withToken := false;
      tokenEnabled := false;
      if consumer {
        withConsumer := true;
        tokenEnabled := true;
      }
      withToken := token;
    }

    /** The user clicks "Sign with Consumer Key". Checking it enables the token box;
        unchecking it also unchecks and disables the token box. */
    method ClickConsumer()
      modifies this
      ensures withConsumer == !old(withConsumer) && useSsl == old(useSsl)
      ensures withConsumer ==> tokenEnabled && withToken == old(withToken)
      ensures !withConsumer ==> !tokenEnabled && !withToken
      ensures Rule()
    {
      withConsumer := !withConsumer;
      if withConsumer {
        tokenEnabled := true;
      } else {
        withToken := false;
        tokenEnabled := false;
      }
    }

    /** The user clicks "Sign with Token": a disabled box ignores the click. */
    method ClickToken()
      modifies this
      ensures withToken == (if old(tokenEnabled) then !old(withToken) else old(withToken))
      ensures useSsl == old(useSsl) && withConsumer == old(withConsumer) && tokenEnabled == old(tokenEnabled)
      ensures old(Rule()) ==> Rule()
    {
      if tokenEnabled {
        withToken := !withToken;
      }
    }

    /** The user clicks "Use SSL". */
    method ClickSsl()
      modifies this
      ensures useSsl == !old(useSsl)
      ensures withConsumer == old(withConsumer) && withToken == old(withToken) && tokenEnabled == old(tokenEnabled)
    {
      useSsl := !useSsl;
    }
  }

  /** The call a method's Execute and Launch buttons make: the method's arguments,
      the consumer pair only when its box is checked, the token pair only when its box
      is checked, and SSL when asked for. */
  function GatedCall(path: string, args: map<string, string>,
                     consumerKey: string, consumerSecret: string, token: string, tokenSecret: string,
                     withConsumer: bool, withToken: bool, useSsl: bool): (c: Call)
    ensures c.path == path && c.args == args && c.useSsl == useSsl
  {
    Call(path, args,
         if withConsumer then consumerKey else "",
         if withConsumer then consumerSecret else "",
         if withToken then token else "",
         if withToken then tokenSecret else "",
         useSsl)
  }

  /** Under the rule of the check boxes, a call carries the token pair only together
      with the consumer pair, and an unchecked consumer box means an unsigned call. */
  lemma TokenOnlyWithConsumer(path: string, args: map<string, string>,
                              consumerKey: string, consumerSecret: string, token: string, tokenSecret: string,
                              withConsumer: bool, withToken: bool, useSsl: bool)
    requires withToken ==> withConsumer
    ensures var c := GatedCall(path, args, consumerKey, consumerSecret, token, tokenSecret,
                               withConsumer, withToken, useSsl);
      && (c.token != "" || c.tokenSecret != "" ==>
            c.consumerKey == consumerKey && c.consumerSecret == consumerSecret
            && c.token == token && c.tokenSecret == tokenSecret)
      && (!withConsumer ==> c == Unsigned(path, args).(useSsl := useSsl))
  {
  }

  /** The installations combo box and what goes with the installation in use: the
      base URLs listed, the text in the box, the base URL the connector talks to,
      whether Quick Fill may be clicked, and the scopes that installation offers. */
  class Installations {
    var items: seq<string>
    var comboText: string
    var current: string
    var quickFillEnabled: bool
    var scopes: seq<Scope>
    /** How many times the connector has been switched to another installation; a
        switch starts the connector afresh, without what it cached for the old one. */
    ghost var switches: nat

    constructor()
      ensures items == [] && comboText == "" && current == "" && !quickFillEnabled && scopes == []
      ensures switches == 0
    {
      switches := 0;
      items := [];
      comboText := "";
      current := "";
      quickFillEnabled := false;
      scopes := [];
    }

    /** The window opens: the connector starts on the mother installation, which is
        asked for the list of installations. On success the box lists them and the
        extra installation, the last of them selected; on a network error it is left
        empty. */
    method Load(fetched: Option<seq<Installation>>)
      modifies this
      ensures current == MotherInstallation
      ensures fetched.None? ==> items == [] && comboText == old(comboText)
      ensures fetched.Some? ==>
        && |items| == |fetched.value| + 1
        && (forall i :: 0 <= i < |fetched.value| ==> items[i] == fetched.value[i].baseUrl)
        && items[|items| - 1] == ExtraInstallation
        && comboText == ExtraInstallation
      ensures quickFillEnabled == old(quickFillEnabled) && scopes == old(scopes)
      ensures switches == old(switches)
    {
      current := MotherInstallation;
      items := [];
      if fetched.None? {
        return;
      }
      var list := fetched.value;
      var listed := [];
      for i := 0 to |list|
        invariant |listed| == i
        invariant forall j :: 0 <= j < i ==> listed[j] == list[j].baseUrl
      {
        listed := listed + [list[i].baseUrl];
      }
      items := listed + [ExtraInstallation];
      comboText := items[|items| - 1];
    }

    /** The start of a reload: Quick Fill is disabled, and the connector switches to
        the installation in the box when it is not the one in use, and only then. */
    method BeginReload()
      modifies this
      ensures current == old(comboText) && !quickFillEnabled
      ensures switches == old(switches) + (if old(current) != old(comboText) then 1 else 0)
      ensures items == old(items) && comboText == old(comboText) && scopes == old(scopes)
    {
      quickFillEnabled := false;
      if current != comboText {
        current := comboText;
        switches := switches + 1;
      }
    }

    /** The end of a reload whose method list arrived: the scopes are taken, the
        installation in use is listed if it is not yet, and Quick Fill is enabled. */
    method EndReload(fetchedScopes: seq<Scope>)
      modifies this
      ensures items == WithInstallation(old(items), current)
      ensures scopes == fetchedScopes && quickFillEnabled
      ensures current == old(current) && comboText == old(comboText) && switches == old(switches)
    {
      scopes := fetchedScopes;
      var onTheList := OnTheList(items, current);
      if !onTheList {
        items := items + [current];
      }
      quickFillEnabled := true;
    }
  }

  /** Whether `url` is one of `items`: the handler's scan over the whole box, which
      sets its flag on every equal item and never stops early. */
  method OnTheList(items: seq<string>, url: string) returns (found: bool)
    ensures found <==> url in items
  {
    found := false;
    for i := 0 to |items|
      invariant found <==> url in items[..i]
    {
      if items[i] == url {
        found := true;
      }
      assert items[..i + 1] == items[..i] + [items[i]];
    }
    assert items[..|items|] == items;
  }

  /** The list once `url` has worked: unchanged when it is already listed, else with
      `url` added at the end. */
  function WithInstallation(items: seq<string>, url: string): (r: seq<string>)
    ensures url in r
    ensures multiset(r) == multiset(items) + (if url in items then multiset{} else multiset{url})
  {
    if url in items then items else items + [url]
  }

  /** Reloading the same installation again adds nothing. */
  lemma WithInstallationIdempotent(items: seq<string>, url: string)
    ensures WithInstallation(WithInstallation(items, url), url) == WithInstallation(items, url)
  {
  }

  /** A list without repeated base URLs keeps none after a reload, and its order is
      kept: it is a prefix of the new list. */
  lemma WithInstallationKeepsDistinct(items: seq<string>, url: string)
    requires Distinct(items)
    ensures Distinct(WithInstallation(items, url))
    ensures items <= WithInstallation(items, url)
  {
    if url !in items {
      var r := items + [url];
      forall i, j | 0 <= i < j < |r|
        ensures r[i] != r[j]
      {
        if j == |items| {
          assert r[i] == items[i];
        }
      }
    }
  }

  /** The window. */
  class Window {
    const credentials: Credentials
    const signing: Signing
    const form: ArgumentForm
    const installations: Installations
    const tree: Tree
    /** The method of the item selected in the tree, if the selected item is one. */
    var selected: Option<ApiMethod>
    /** Whether the form shows the Execute and Launch buttons: it does once the
        argument rows of a selected method were all made. */
    var buttonsShown: bool

    constructor(credentials: Credentials)
      ensures this.credentials == credentials
      ensures fresh(signing) && fresh(form) && fresh(installations) && fresh(tree) && fresh(tree.Repr)
      ensures signing.Rule() && tree.Valid() && tree.model.view == Empty && selected.None? && !buttonsShown
    {
      this.credentials := credentials;
      signing := new Signing();
      form := new ArgumentForm();
      installations := new Installations();
      tree := new Tree();
      selected := None;
      buttonsShown := false;
    }

    /** The selection in the tree changed: the old form is cleared; when the new item is
        a method, its description `d` (as the connector gives it for that method) is
        shown, the boxes starting with the remembered values in `cache`, and then the
        check boxes and the buttons are created, the boxes with their remembered states.
        When two arguments share a name, showing the form throws before the check boxes
        and the buttons are made. */
    method SelectItem(tag: Option<ApiMethod>, d: MethodDetail, cache: map<string, string>,
                      ssl: bool, consumer: bool, token: bool) returns (ok: bool)
      requires tag.Some? ==> d.name == tag.value.name
      modifies this, form, signing
      ensures selected == tag && buttonsShown == ok
      ensures tag.None? ==> !ok && form.title == "" && form.link == "" && form.fields == [] && form.boxes == map[]
      ensures tag.Some? ==> form.title == EscapeUnderscores(d.briefDescription) && form.link == d.refUrl
      ensures tag.Some? ==>
        Rows(form.fields, form.boxes, ok) == RowsOf(d.name, FormArguments(d), cache)
      ensures ok ==> signing.useSsl == ssl && signing.withConsumer == consumer && signing.withToken == token
                     && signing.tokenEnabled == consumer
      ensures !ok ==> unchanged(signing)
    {
      selected := tag;
      buttonsShown := false;
      form.Clear();
      if tag.None? {
        return false;
      }
      ok := form.Show(d, cache);
      if !ok {
        return;
      }
      signing.Restore(ssl, consumer, token);
      buttonsShown := true;
    }

    /** The call the Execute and Launch buttons make for the selected method. */
    method GetMethodCall() returns (c: Call)
      requires selected.Some? && buttonsShown
      ensures c == GatedCall(selected.value.name, FilledIn(form.boxes),
                             credentials.consumerKey, credentials.consumerSecret,
                             credentials.token, credentials.tokenSecret,
                             signing.withConsumer, signing.withToken, signing.useSsl)
    {
      var args := form.GetMethodArgs();
      c := Call(selected.value.name, args,
                if signing.withConsumer then credentials.consumerKey else "",
                if signing.withConsumer then credentials.consumerSecret else "",
                if signing.withToken then credentials.token else "",
                if signing.withToken then credentials.tokenSecret else "",
                signing.useSsl);
    }

    /** The Quick Fill button. The dialogs, the browser and the network are inputs:
        whether the user agrees to register a key, the scopes picked (None when
        cancelled), whether the browser starts, the PIN typed, and the script of
        replies. The token boxes receive the access pair when the handshake completes
        and are left alone otherwise. */
    method QuickFill(register: bool, scopeChoice: Option<seq<string>>, browserOpens: bool, pin: string,
                     replies: seq<Reply>) returns (run: Run)
      modifies credentials
      ensures run == Flow(old(credentials.consumerKey), old(credentials.consumerSecret),
                          register, scopeChoice, browserOpens, pin, replies)
      ensures credentials.consumerKey == old(credentials.consumerKey)
      ensures credentials.consumerSecret == old(credentials.consumerSecret)
      ensures run.outcome.Filled? ==>
        credentials.token == run.outcome.access.token && credentials.tokenSecret == run.outcome.access.secret
      ensures !run.outcome.Filled? ==>
        credentials.token == old(credentials.token) && credentials.tokenSecret == old(credentials.tokenSecret)
    {
      var key := credentials.consumerKey;
      var secret := credentials.consumerSecret;
      if key == "" {
        if register {
          return Run(NoConsumerKey, [OpenBrowser(Unsigned(DevelopersPath, map[]))]);
        }
        return Run(NoConsumerKey, []);
      }
      if scopeChoice.None? {
        return Run(Cancelled, []);
      }
      var req := FetchWithFallback(RequestCall(key, secret, scopeChoice.value, true), replies, 0);
      run := FinishQuickFill(key, secret, req, browserOpens, pin, replies);
    }

    /** The handler from the request-token reply on. */
    method FinishQuickFill(key: string, secret: string, req: Fetched, browserOpens: bool, pin: string,
                           replies: seq<Reply>) returns (run: Run)
      modifies credentials
      ensures run == AfterRequest(key, secret, req, browserOpens, pin, replies)
      ensures credentials.consumerKey == old(credentials.consumerKey)
      ensures credentials.consumerSecret == old(credentials.consumerSecret)
      ensures run.outcome.Filled? ==>
        credentials.token == run.outcome.access.token && credentials.tokenSecret == run.outcome.access.secret
      ensures !run.outcome.Filled? ==>
        credentials.token == old(credentials.token) && credentials.tokenSecret == old(credentials.tokenSecret)
    {
      if req.body.None? {
        return Run(TransportFailed, req.steps);
      }
      var request := ReadTokenResponse(req.body.value);
      if request.None? {
        return Run(RequestTokenUnreadable, req.steps);
      }
      var launched := req.steps + [OpenBrowser(AuthorizeCall(request.value.token))];
      if !browserOpens {
        return Run(BrowserFailed, launched);
      }
      var acc := FetchWithFallback(AccessCall(key, secret, request.value, pin, true), replies, |req.steps|);
      if acc.body.None? {
        return Run(TransportFailed, launched + acc.steps);
      }
      var access := ReadTokenResponse(acc.body.value);
      if access.None? {
        return Run(AccessTokenUnreadable, launched + acc.steps);
      }
      credentials.token := access.value.token;
      credentials.tokenSecret := access.value.secret;
      return Run(Filled(access.value), launched + acc.steps);
    }

    /** The tree part of a reload: the tree view is emptied, which takes the selected
        item away and so clears the form, and, when the method list arrived (`methods`
        is None on a network error), the tree is rebuilt from it. */
    method ReloadTree(methods: Option<seq<ApiMethod>>) returns (ok: bool)
      modifies this, form, tree, tree.root
      ensures tree.Valid() && fresh(tree.Repr - {tree.root})
      ensures ok == methods.Some?
      ensures tree.model.view == if ok then Built(Empty, methods.value) else Empty
      ensures selected.None? && !buttonsShown
      ensures form.title == "" && form.link == "" && form.fields == [] && form.boxes == map[]
    {
      selected := None;
      buttonsShown := false;
      form.Clear();
      tree.Clear();
      ok := tree.Refresh(methods);
    }

    /** The refresh button (or Enter in the combo box): clear the tree and disable
        Quick Fill; switch the connector to the installation typed or picked in the
        box when it differs; fetch the method list (`methods`, None on a network
        error, which ends the handler with the switch made); fetch the scopes; list the
        installation when it is not listed yet; and enable Quick Fill again. Clearing
        the tree (which drops the selection and the form with it) and the first two
        steps touch separate parts of the window, so the tree is cleared here just
        before it is rebuilt. */
    method ReloadInstallation(methods: Option<seq<ApiMethod>>, fetchedScopes: seq<Scope>)
      returns (ok: bool)
      modifies this, form, installations, tree, tree.root
      ensures tree.Valid() && fresh(tree.Repr - {tree.root})
      ensures ok == methods.Some?
      ensures tree.model.view == if ok then Built(Empty, methods.value) else Empty
      ensures selected.None? && !buttonsShown
      ensures form.title == "" && form.link == "" && form.fields == [] && form.boxes == map[]
      ensures installations.current == old(installations.comboText)
      ensures installations.switches == old(installations.switches)
        + (if old(installations.current) != old(installations.comboText) then 1 else 0)
      ensures installations.comboText == old(installations.comboText)
      ensures installations.quickFillEnabled == ok
      ensures installations.scopes == if ok then fetchedScopes else old(installations.scopes)
      ensures installations.items ==
        if ok then WithInstallation(old(installations.items), old(installations.comboText))
        else old(installations.items)
    {
      installations.BeginReload();
      ok := ReloadTree(methods);
      if ok {
        installations.EndReload(fetchedScopes);
      }
    }
  }
}
