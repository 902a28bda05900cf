/** The right-hand side of the window for the selected method: one row per argument
    (a label and a text box), and the map from argument names to the boxes' text
    that the method call is later built from. */
module MethodForm {
  import opened Basics
  import opened Catalog
  import opened Text

  /** The argument through which an administrator's token acts on behalf of another
      user; every method that accepts a token gets a box for it. */
  const AsUserId := "as_user_id"
  /** The server's word for a method that takes no token. */
  const Ignored := "ignored"

  /** The arguments a method's form offers: the described ones, in order, then
      `as_user_id` (not required) unless the method ignores tokens. */
  function FormArguments(d: MethodDetail): (args: seq<Argument>)
    ensures |args| == |d.arguments| + (if d.authToken == Ignored then 0 else 1)
    ensures args[..|d.arguments|] == d.arguments
    ensures d.authToken != Ignored ==> args[|d.arguments|] == Argument(AsUserId, false)
  {
    if d.authToken != Ignored then d.arguments + [Argument(AsUserId, false)] else d.arguments
  }

  /** A box for `as_user_id` is offered exactly when the method takes a token or
      describes such an argument itself. */
  lemma AsUserIdOffered(d: MethodDetail)
    ensures (exists i :: 0 <= i < |FormArguments(d)| && FormArguments(d)[i].name == AsUserId)
        <==> (d.authToken != Ignored || exists i :: 0 <= i < |d.arguments| && d.arguments[i].name == AsUserId)
  {
    var args := FormArguments(d);
    if exists i :: 0 <= i < |args| && args[i].name == AsUserId {
      var i :| 0 <= i < |args| && args[i].name == AsUserId;
      if i < |d.arguments| {
        assert args[..|d.arguments|][i] == d.arguments[i];
      }
    }
    if exists i :: 0 <= i < |d.arguments| && d.arguments[i].name == AsUserId {
      var i :| 0 <= i < |d.arguments| && d.arguments[i].name == AsUserId;
      assert args[..|d.arguments|][i] == args[i];
    } else if d.authToken != Ignored {
      assert args[|d.arguments|].name == AsUserId;
    }
  }

  /** How a label is typeset: required arguments upright and bold, the others
      italic and of normal weight. */
  datatype Emphasis = Required | Optional

  /** One argument row: the argument's name, the caption handed to the label, the key
      under which the box's value is remembered between sessions, and the typeface. */
  datatype Field = Field(argName: string, caption: string, cacheKey: string, emphasis: Emphasis)

  /** The row for argument `a` of the method named `methodName`. */
  function FieldFor(methodName: string, a: Argument): (f: Field)
    ensures f.argName == a.name
    ensures f.emphasis == Required <==> a.isRequired
  {
    Field(a.name, EscapeUnderscores(a.name) + ":", CacheKey(methodName, a.name),
          if a.isRequired then Required else Optional)
  }

  /** WPF shows the argument's name verbatim, followed by a colon: the escaping leaves
      no underscore to be taken as an access-key marker. */
  lemma LabelReadsBack(methodName: string, a: Argument)
    ensures CollapseUnderscores(FieldFor(methodName, a).caption) == a.name + ":"
    ensures NoAccessKey(EscapeUnderscores(a.name))
  {
    CollapseEscaped(a.name, ":");
    assert CollapseUnderscores(":") == ":";
    EscapedHasNoAccessKey(a.name);
  }

  /** Rows of two different arguments, or of two methods, never share a remembered
      value, as long as method names carry no '#'. */
  lemma CacheKeysDistinct(m1: string, a1: Argument, m2: string, a2: Argument)
    requires '#' !in m1 && '#' !in m2
    requires m1 != m2 || a1.name != a2.name
    ensures FieldFor(m1, a1).cacheKey != FieldFor(m2, a2).cacheKey
  {
    if FieldFor(m1, a1).cacheKey == FieldFor(m2, a2).cacheKey {
      CacheKeyInjective(m1, a1.name, m2, a2.name);
    }
  }

  /** The names of a list of arguments, in order. */
  function Names(args: seq<Argument>): seq<string>
  {
    seq(|args|, i requires 0 <= i < |args| => args[i].name)
  }

  /** What a new box holds: the value remembered under its key, or nothing. */
  function InitialText(cache: map<string, string>, key: string): string
  {
    if key in cache then cache[key] else ""
  }

  /** The argument part of the window: the header, the link to the method's
      documentation, the argument rows in order, and the text of each argument's box
      by argument name. */
  class ArgumentForm {
    var title: string
    var link: string
    var fields: seq<Field>
    var boxes: map<string, string>

    constructor()
      ensures title == "" && link == "" && fields == [] && boxes == map[]
    {
      title := "";
      link := "";
      fields := [];
      boxes := map[];
    }

    /** Another method (or none) was selected: the old form goes away. */
    method Clear()
      modifies this
      ensures title == "" && link == "" && fields == [] && boxes == map[]
    {
      title := "";
      link := "";
      fields := [];
      boxes := map[];
    }

    /** Builds the form of a method from its description, the boxes starting with
        the values remembered in `cache`; see BuildRows for a duplicated argument. */
    method Show(d: MethodDetail, cache: map<string, string>) returns (ok: bool)
      modifies this
      ensures title == EscapeUnderscores(d.briefDescription) && link == d.refUrl
      ensures Rows(fields, boxes, ok) == RowsOf(d.name, FormArguments(d), cache)
    {
      title := EscapeUnderscores(d.briefDescription);
      link := d.refUrl;
      var r := BuildRows(d.name, FormArguments(d), cache);
      fields, boxes, ok := r.fields, r.boxes, r.complete;
    }

    /** The user types `text` into the box of argument `name`. */
    method Type(name: string, text: string)
      requires name in boxes
      modifies this
      ensures boxes == old(boxes)[name := text]
      ensures title == old(title) && link == old(link) && fields == old(fields)
    {
      boxes := boxes[name := text];
    }

    /** The arguments of the call: every box with some text in it, under its
        argument's name. */
    method GetMethodArgs() returns (results: map<string, string>)
      ensures results == FilledIn(boxes)
    {
      results := map[];
      var rest := boxes.Keys;
      while rest != {}
        invariant rest <= boxes.Keys
        invariant results == map k | k in boxes.Keys - rest && boxes[k] != "" :: boxes[k]
        decreases rest
      {
        var k :| k in rest;
        if |boxes[k]| > 0 {
          results := results[k := boxes[k]];
        }
        rest := rest - {k};
      }
    }
  }

  /** A form as built: its rows, its boxes' text by argument name, and whether every
      argument got its row. */
  datatype Rows = Rows(fields: seq<Field>, boxes: map<string, string>, complete: bool)

  /** The form built for `args`, stopping before the first argument whose name was
      already seen. */
  function RowsOf(methodName: string, args: seq<Argument>, cache: map<string, string>): (r: Rows)
    ensures |r.fields| <= |args|
    ensures r.complete <==> |r.fields| == |args|
    decreases |args|
  {
    if args == [] then Rows([], map[], true)
    else
      var init := RowsOf(methodName, args[..|args| - 1], cache);
      var a := args[|args| - 1];
      if !init.complete || a.name in init.boxes then init.(complete := false)
      else Rows(init.fields + [FieldFor(methodName, a)],
                init.boxes[a.name := InitialText(cache, CacheKey(methodName, a.name))], true)
  }

  /** The loop of the form: one row and one box per argument, in order. Adding a
      second box under a name already used throws, which ends the loop with the
      rows built so far. */
  method BuildRows(methodName: string, args: seq<Argument>, cache: map<string, string>) returns (r: Rows)
    ensures r == RowsOf(methodName, args, cache)
  {
    var rows := [];
    var texts := map[];
    var i := 0;
    while i < |args|
      invariant 0 <= i <= |args|
      invariant Rows(rows, texts, true) == RowsOf(methodName, args[..i], cache)
    {
      var a := args[i];
      assert args[..i + 1][..i] == args[..i];
      if a.name in texts {
        RowsStop(methodName, args, cache, i);
        return Rows(rows, texts, false);
      }
      rows := rows + [FieldFor(methodName, a)];
      texts := texts[a.name := InitialText(cache, CacheKey(methodName, a.name))];
      i := i + 1;
    }
    assert args[..i] == args;
    return Rows(rows, texts, true);
  }

  /** Once an argument repeats a name, no later argument is built. */
  lemma {:induction false} RowsStop(methodName: string, args: seq<Argument>, cache: map<string, string>, i: nat)
    requires i < |args|
    requires RowsOf(methodName, args[..i], cache).complete
    requires args[i].name in RowsOf(methodName, args[..i], cache).boxes
    ensures RowsOf(methodName, args, cache) == RowsOf(methodName, args[..i], cache).(complete := false)
    decreases |args|
  {
    if i == |args| - 1 {
      assert args[..|args| - 1] == args[..i];
    } else {
      assert args[..|args| - 1][..i] == args[..i];
      RowsStop(methodName, args[..|args| - 1], cache, i);
    }
  }

  /** The rows are those of the first arguments, one per argument, in order. */
  lemma {:induction false} RowsInOrder(methodName: string, args: seq<Argument>, cache: map<string, string>)
    ensures var r := RowsOf(methodName, args, cache);
      forall j :: 0 <= j < |r.fields| ==> r.fields[j] == FieldFor(methodName, args[j])
    decreases |args|
  {
    if args != [] {
      RowsInOrder(methodName, args[..|args| - 1], cache);
    }
  }

  /** There is a box for exactly the arguments that got a row, and each starts with the
      value remembered for it. */
  lemma {:induction false} BoxesOfRows(methodName: string, args: seq<Argument>, cache: map<string, string>)
    ensures var r := RowsOf(methodName, args, cache);
      && (forall j :: 0 <= j < |r.fields| ==> args[j].name in r.boxes)
      && (forall k :: k in r.boxes ==> exists j :: 0 <= j < |r.fields| && args[j].name == k)
      && (forall k :: k in r.boxes ==> r.boxes[k] == InitialText(cache, CacheKey(methodName, k)))
    decreases |args|
  {
    if args != [] {
      var init := args[..|args| - 1];
      BoxesOfRows(methodName, init, cache);
      assert forall j :: 0 <= j < |init| ==> init[j] == args[j];
    }
  }

  /** The arguments that got a row have distinct names. */
  lemma {:induction false} RowsDistinct(methodName: string, args: seq<Argument>, cache: map<string, string>)
    ensures var p := |RowsOf(methodName, args, cache).fields|;
      forall i, j :: 0 <= i < j < p ==> args[i].name != args[j].name
    decreases |args|
  {
    if args != [] {
      var init := args[..|args| - 1];
      RowsDistinct(methodName, init, cache);
      BoxesOfRows(methodName, init, cache);
      var r0 := RowsOf(methodName, init, cache);
      assert forall j :: 0 <= j < |r0.fields| ==> init[j] == args[j];
      if r0.complete && args[|args| - 1].name !in r0.boxes {
        assert forall i :: 0 <= i < |r0.fields| ==> args[i].name in r0.boxes;
      }
    }
  }

  /** When the form is not complete, the rows stop at the first argument that repeats
      an earlier name. */
  lemma {:induction false} RowsStopAtRepeat(methodName: string, args: seq<Argument>, cache: map<string, string>)
    ensures var r := RowsOf(methodName, args, cache); var p := |r.fields|;
      !r.complete ==> exists j :: 0 <= j < p && args[j].name == args[p].name
    decreases |args|
  {
    if args != [] {
      var init := args[..|args| - 1];
      RowsStopAtRepeat(methodName, init, cache);
      var r0 := RowsOf(methodName, init, cache);
      var p := |r0.fields|;
      assert forall j :: 0 <= j < p ==> init[j] == args[j];
      if !r0.complete {
        assert init[p] == args[p];
      } else if args[|args| - 1].name in r0.boxes {
        BoxesOfRows(methodName, init, cache);
      }
    }
  }

  /** The form is complete exactly when no two arguments share a name. */
  lemma FormCompleteIffDistinct(methodName: string, args: seq<Argument>, cache: map<string, string>)
    ensures RowsOf(methodName, args, cache).complete <==> Distinct(Names(args))
  {
    RowsDistinct(methodName, args, cache);
    RowsStopAtRepeat(methodName, args, cache);
    var r := RowsOf(methodName, args, cache);
    if !r.complete {
      var j :| 0 <= j < |r.fields| && args[j].name == args[|r.fields|].name;
      assert Names(args)[j] == Names(args)[|r.fields|];
    }
  }

  /** A method that takes a token and lists `as_user_id` among its own arguments gets a
      second `as_user_id` from the window, so its form is never built in full. */
  lemma AsUserIdListedTwice(d: MethodDetail, cache: map<string, string>, i: nat)
    requires d.authToken != Ignored
    requires i < |d.arguments| && d.arguments[i].name == AsUserId
    ensures !RowsOf(d.name, FormArguments(d), cache).complete
  {
    var args := FormArguments(d);
    FormCompleteIffDistinct(d.name, args, cache);
    assert args[..|d.arguments|][i] == args[i];
    assert Names(args)[i] == Names(args)[|d.arguments|];
  }

  /** The boxes that are not empty. */
  function FilledIn(boxes: map<string, string>): (args: map<string, string>)
    ensures args.Keys <= boxes.Keys
    ensures forall k :: k in args ==> args[k] == boxes[k]
    ensures forall k :: k in boxes ==> (k in args <==> boxes[k] != "")
  {
    map k | k in boxes && boxes[k] != "" :: boxes[k]
  }

  /** Typing text into a box sends that argument with that text; emptying the box
      stops it being sent; nothing else changes. */
  lemma TypingChangesOneArgument(boxes: map<string, string>, name: string, text: string)
    ensures text != "" ==> FilledIn(boxes[name := text]) == FilledIn(boxes)[name := text]
    ensures text == "" ==> FilledIn(boxes[name := text]) == FilledIn(boxes) - {name}
  {
  }
}
