/** Sign-on: after the envelope test, the CSRF token name and value are read from the
    `entry` elements anywhere in the response, matched by key, the last match winning. */
module SignOn {
  import opened Common
  import opened Xml
  import opened Envelope

  const TOKEN_NAME_KEY := "IBI_CSRF_Token_Name"
  const TOKEN_VALUE_KEY := "IBI_CSRF_Token_Value"

  /** A token is a string, or `None` when the matching entry had no `value` (the source then
      stores `undefined` or `null`). */
  datatype Tokens = Tokens(csrfTokenName: Option<string>, csrfTokenValue: Option<string>)

  datatype Session = Session(user: string, tokens: Tokens)

  /** The token `entries` carry under `key`: the value of the last entry whose key matches,
      or the empty string when none does. */
  function LatestToken(entries: seq<Element>, key: string): Option<string>
    decreases |entries|
  {
    if entries == [] then Some("")
    else if EntryKey(entries[|entries| - 1]) == Some(key) then EntryValue(entries[|entries| - 1])
    else LatestToken(entries[..|entries| - 1], key)
  }

  /** No matching entry: the token stays the empty string. */
  lemma {:induction false} TokenDefaultsToEmpty(entries: seq<Element>, key: string)
    requires forall e :: e in entries ==> EntryKey(e) != Some(key)
    ensures LatestToken(entries, key) == Some("")
    decreases |entries|
  {
    if entries != [] {
      assert entries[|entries| - 1] in entries;
      var init := entries[..|entries| - 1];
      forall e | e in init ensures EntryKey(e) != Some(key) {
        assert e in entries;
      }
      TokenDefaultsToEmpty(init, key);
    }
  }

  /** A matching entry overwrites every earlier one: the token is the value of the last
      entry whose key matches. */
  lemma {:induction false} LastMatchingEntryWins(entries: seq<Element>, key: string, i: nat)
    requires i < |entries| && EntryKey(entries[i]) == Some(key)
    requires forall j :: i < j < |entries| ==> EntryKey(entries[j]) != Some(key)
    ensures LatestToken(entries, key) == EntryValue(entries[i])
    decreases |entries|
  {
    if i < |entries| - 1 {
      var init := entries[..|entries| - 1];
      forall j | i < j < |init| ensures EntryKey(init[j]) != Some(key) {
        assert init[j] == entries[j];
      }
      LastMatchingEntryWins(init, key, i);
    }
  }

  /** The loop of `signOn` over the entries, updating both tokens as it goes. */
  method ExtractTokens(entries: seq<Element>) returns (tokens: Tokens)
    ensures tokens == Tokens(LatestToken(entries, TOKEN_NAME_KEY), LatestToken(entries, TOKEN_VALUE_KEY))
  {
    var name: Option<string> := Some("");
    var value: Option<string> := Some("");
    var i := 0;
    while i < |entries|
      invariant 0 <= i <= |entries|
      invariant name == LatestToken(entries[..i], TOKEN_NAME_KEY)
      invariant value == LatestToken(entries[..i], TOKEN_VALUE_KEY)
    {
      var key := EntryKey(entries[i]);
      var v := EntryValue(entries[i]);
      if key == Some(TOKEN_NAME_KEY) {
        name := v;
      } else if key == Some(TOKEN_VALUE_KEY) {
        value := v;
      }
      assert entries[..i + 1][..i] == entries[..i];
      assert entries[..i + 1][i] == entries[i];
      i := i + 1;
    }
    assert entries[..i] == entries;
    tokens := Tokens(name, value);
  }

  /** Every `entry` of the response, wherever it sits. */
  function AllEntries(root: Element): seq<Element>
  {
    DocSelectAll(root, "entry")
  }

  /** `signOn` once the response is parsed: success exactly on a success code, with the user
      and the two tokens; otherwise the server's description or the fixed message. */
  method InterpretSignOn(username: string, root: Element) returns (r: Outcome<Session>)
    ensures r.Success? <==> Succeeded(root)
    ensures r.Success? ==>
              r.value.user == username &&
              r.value.tokens.csrfTokenName == LatestToken(AllEntries(root), TOKEN_NAME_KEY) &&
              r.value.tokens.csrfTokenValue == LatestToken(AllEntries(root), TOKEN_VALUE_KEY)
    ensures r.Failure? ==> r.error == Some(SignOnError(root)) && r.error.value != ""
  {
    if IsSuccessCode(Attr(root, "returncode")) {
      var tokens := ExtractTokens(AllEntries(root));
      r := Success(Session(username, tokens));
    } else {
      r := Failure(Some(OrElse(Attr(root, "returndesc"), SIGN_ON_FAILED)));
    }
  }

  /** A pair entry `<entry><key value=k/><value value=v/></entry>`. */
  function PairEntry(k: string, v: string): Element
  {
    Element("entry", map[], [Elem(Element("key", map["value" := k], [])), Elem(Element("value", map["value" := v], []))])
  }

  lemma PairEntryReads(k: string, v: string)
    ensures Descendants(PairEntry(k, v)) == [PairEntry(k, v).children[0].element, PairEntry(k, v).children[1].element]
    ensures PairEntry(k, v).tag == "entry" && WithTag(Descendants(PairEntry(k, v)), "entry") == []
    ensures EntryKey(PairEntry(k, v)) == Some(k) && EntryValue(PairEntry(k, v)) == Some(v)
  {
    var e := PairEntry(k, v);
    var key := e.children[0].element;
    var value := e.children[1].element;
    assert Below(key, 0) == [] && Below(value, 0) == [];
    assert Below(e, 2) == [];
    assert Below(e, 1) == [value] + Below(value, 0) + Below(e, 2);
    assert Below(e, 0) == [key] + Below(key, 0) + Below(e, 1);
    assert FirstBelow(key, 0, "value") == None;
    assert FirstBelow(e, 1, "value") == Some(value);
    assert FirstBelow(e, 0, "value") == Some(value);
    assert FirstBelow(e, 0, "key") == Some(key);
    assert key.tag == "key" && value.tag == "value";
    assert [key, value][1..] == [value] && [value][1..] == [];
    assert WithTag([value], "entry") == [];
    assert WithTag([key, value], "entry") == [];
  }

  /** The success envelope of the example exchange. */
  function ExampleEnvelope(): Element
  {
    Element("ibfsrpc", map["returncode" := "10000"],
            [Elem(PairEntry(TOKEN_NAME_KEY, "tok")), Elem(PairEntry(TOKEN_VALUE_KEY, "abc123"))])
  }

  /** A root that is not an entry, with two entry children that hold no entries, lists just those two. */
  lemma TwoEntryDocument(root: Element, first: Element, second: Element)
    requires root.tag != "entry" && root.children == [Elem(first), Elem(second)]
    requires first.tag == "entry" && WithTag(Descendants(first), "entry") == []
    requires second.tag == "entry" && WithTag(Descendants(second), "entry") == []
    ensures AllEntries(root) == [first, second]
  {
    assert Below(root, 2) == [];
    assert Below(root, 1) == [second] + Descendants(second) + Below(root, 2);
    assert Below(root, 0) == [first] + Descendants(first) + Below(root, 1);
    WithTagAppend([root], Descendants(root), "entry");
    WithTagAppend([first] + Descendants(first), Below(root, 1), "entry");
    WithTagAppend([first], Descendants(first), "entry");
    WithTagAppend([second] + Descendants(second), [], "entry");
    WithTagAppend([second], Descendants(second), "entry");
    assert [second] + Descendants(second) + [] == [second] + Descendants(second);
  }

  lemma ExampleEntries()
    ensures AllEntries(ExampleEnvelope()) == [PairEntry(TOKEN_NAME_KEY, "tok"), PairEntry(TOKEN_VALUE_KEY, "abc123")]
  {
    PairEntryReads(TOKEN_NAME_KEY, "tok");
    PairEntryReads(TOKEN_VALUE_KEY, "abc123");
    TwoEntryDocument(ExampleEnvelope(), PairEntry(TOKEN_NAME_KEY, "tok"), PairEntry(TOKEN_VALUE_KEY, "abc123"));
  }

  /** Two entries keyed by the token name and the token value yield both tokens. */
  lemma TwoEntryTokens(name: Element, value: Element)
    requires EntryKey(name) == Some(TOKEN_NAME_KEY) && EntryKey(value) == Some(TOKEN_VALUE_KEY)
    ensures LatestToken([name, value], TOKEN_NAME_KEY) == EntryValue(name)
    ensures LatestToken([name, value], TOKEN_VALUE_KEY) == EntryValue(value)
  {
    assert [name, value][..1] == [name] && [name][..0] == [];
  }

  /** The example exchange: a success envelope carrying the token name `tok` and the token value
      `abc123` signs the user on with those tokens. */
  lemma SignOnExample()
    ensures Succeeded(ExampleEnvelope())
    ensures LatestToken(AllEntries(ExampleEnvelope()), TOKEN_NAME_KEY) == Some("tok")
    ensures LatestToken(AllEntries(ExampleEnvelope()), TOKEN_VALUE_KEY) == Some("abc123")
  {
    ExampleEntries();
    PairEntryReads(TOKEN_NAME_KEY, "tok");
    PairEntryReads(TOKEN_VALUE_KEY, "abc123");
    TwoEntryTokens(PairEntry(TOKEN_NAME_KEY, "tok"), PairEntry(TOKEN_VALUE_KEY, "abc123"));
  }

  /** A `-1` envelope fails with its description. */
  lemma SignOnFailureExample()
    ensures var bad := Element("ibfsrpc", map["returncode" := "-1", "returndesc" := "bad creds"], []);
            !Succeeded(bad) && SignOnError(bad) == "bad creds"
  {
    var bad := Element("ibfsrpc", map["returncode" := "-1", "returndesc" := "bad creds"], []);
    assert Attr(bad, "returncode") == Some("-1");
    assert ReturnDesc(bad) == Some("bad creds");
  }
}
