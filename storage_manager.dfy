/** The browser storage wrapper (lib/storage-manager.ts). Every value goes to
    localStorage; when the user has accepted cookies (localStorage 'cookie-consent' is
    'accepted') it is mirrored in a cookie, and reads then prefer the cookie. The cookie
    jar is modelled as the browser keeps it, one cookie per name in creation order, and
    `document.cookie` reads as its entries joined by "; ". Outside a browser
    (`typeof window === 'undefined'`) every operation does nothing and reads give
    null. */
module StorageManager {
  import opened Wrappers
  import opened Text

  datatype Cookie = Cookie(name: string, value: string)

  const ConsentKey := "cookie-consent"

  /** hasCookieConsent, given the localStorage contents. */
  predicate Consent(local: map<string, string>)
  {
    ConsentKey in local && local[ConsentKey] == "accepted"
  }

  /** A cookie name the parser can find again: non-empty, no separator, no '=', no
      leading space. */
  predicate ValidName(n: string)
  {
    n != [] && ';' !in n && '=' !in n && n[0] != ' '
  }

  predicate WellFormedJar(jar: seq<Cookie>)
  {
    forall i :: 0 <= i < |jar| ==> ValidName(jar[i].name) && ';' !in jar[i].value
  }

  /** The first cookie of that name. */
  function Lookup(jar: seq<Cookie>, name: string): (r: Option<string>)
    ensures r.Some? <==> exists i :: 0 <= i < |jar| && jar[i].name == name
  {
    if jar == [] then None
    else if jar[0].name == name then Some(jar[0].value)
    else
      assert forall i :: 0 < i < |jar| ==> jar[i] == jar[1..][i - 1];
      Lookup(jar[1..], name)
  }

  /** A write with a future expiry: the cookie of that name gets the new value in place,
      or a new cookie is added at the end. */
  function Upsert(jar: seq<Cookie>, name: string, value: string): (r: seq<Cookie>)
    ensures Lookup(r, name) == Some(value)
    ensures forall n :: n != name ==> Lookup(r, n) == Lookup(jar, n)
  {
    if jar == [] then [Cookie(name, value)]
    else if jar[0].name == name then [Cookie(name, value)] + jar[1..]
    else
      assert ([jar[0]] + Upsert(jar[1..], name, value))[1..] == Upsert(jar[1..], name, value);
      [jar[0]] + Upsert(jar[1..], name, value)
  }

  /** A write with an expiry in the past removes the cookie (browsers strip leading
      spaces from the written name). */
  function Expire(jar: seq<Cookie>, name: string): (r: seq<Cookie>)
  {
    Filter(jar, (c: Cookie) => c.name != name)
  }

  lemma {:induction false} UpsertWellFormed(jar: seq<Cookie>, name: string, value: string)
    requires WellFormedJar(jar) && ValidName(name) && ';' !in value
    ensures WellFormedJar(Upsert(jar, name, value))
    decreases |jar|
  {
    if jar != [] && jar[0].name != name {
      assert WellFormedJar(jar[1..]) by {
        forall i | 0 <= i < |jar| - 1 ensures ValidName(jar[1..][i].name) && ';' !in jar[1..][i].value {
          assert jar[1..][i] == jar[i + 1];
        }
      }
      UpsertWellFormed(jar[1..], name, value);
    }
  }

  /** Expiring keeps the other cookies, in order, and no cookie of that name. */
  lemma ExpireFacts(jar: seq<Cookie>, name: string)
    ensures var r := Expire(jar, name);
      (forall i :: 0 <= i < |r| ==> r[i] in jar && r[i].name != name) &&
      (forall i :: 0 <= i < |jar| && jar[i].name != name ==> jar[i] in r)
    ensures IsSubsequence(Expire(jar, name), jar)
    ensures WellFormedJar(jar) ==> WellFormedJar(Expire(jar, name))
    ensures forall n :: Lookup(Expire(jar, name), n) == (if n == name then None else Lookup(jar, n))
  {
    ghost var keep := (c: Cookie) => c.name != name;
    FilterContents(jar, keep);
    FilterIsSubsequence(jar, keep);
    ExpireLookup(jar, name);
  }

  lemma {:induction false} ExpireLookup(jar: seq<Cookie>, name: string)
    ensures forall n :: Lookup(Expire(jar, name), n) == (if n == name then None else Lookup(jar, n))
    decreases |jar|
  {
    if jar != [] {
      ExpireLookup(jar[1..], name);
      var rest := Expire(jar[1..], name);
      if jar[0].name != name {
        assert Expire(jar, name) == [jar[0]] + rest;
        assert ([jar[0]] + rest)[1..] == rest;
      } else {
        assert Expire(jar, name) == rest;
      }
      forall n
        ensures Lookup(Expire(jar, name), n) == (if n == name then None else Lookup(jar, n))
      {
      }
    }
  }

  /** setCookie(name, value, days): the expiry is `days` days from now, so a positive
      number of days stores the cookie and any other number expires it at once. */
  function SetCookieJar(jar: seq<Cookie>, name: string, value: string, days: int): seq<Cookie>
  {
    if days > 0 then Upsert(jar, name, value) else Expire(jar, name)
  }

  /** The "name=value" text of a cookie. */
  function EntryText(c: Cookie): string
  {
    c.name + "=" + c.value
  }

  /** The entries of `document.cookie` between its ';' separators. */
  function Entries(jar: seq<Cookie>): (r: seq<string>)
    ensures |r| == |jar|
  {
    seq(|jar|, i requires 0 <= i < |jar| => (if i == 0 then "" else " ") + EntryText(jar[i]))
  }

  /** `document.cookie` as read. */
  function Serialize(jar: seq<Cookie>): string
  {
    Join(Entries(jar), ';')
  }

  predicate IsBlank(c: char)
  {
    c == ' '
  }

  /** An entry with its leading spaces removed. */
  function StripBlanks(c: string): (r: string)
    ensures r == [] || r[0] != ' '
  {
    c[Span(c, IsBlank)..]
  }

  /** The first entry that starts with `nameEQ` once its leading spaces are gone, and
      the text after `nameEQ` in it. */
  function FirstMatch(entries: seq<string>, nameEQ: string): Option<string>
  {
    if entries == [] then None
    else
      var c := StripBlanks(entries[0]);
      if StartsWith(c, nameEQ) then Some(c[|nameEQ|..]) else FirstMatch(entries[1..], nameEQ)
  }

  /** getCookie on a given `document.cookie` text. */
  function CookieValue(cookie: string, name: string): Option<string>
  {
    FirstMatch(Split(cookie, ';'), name + "=")
  }

  /** What getItem returns. */
  function ItemValue(hasWindow: bool, local: map<string, string>, jar: seq<Cookie>, key: string): Option<string>
  {
    if !hasWindow then None
    else if Consent(local) && CookieValue(Serialize(jar), key).Some? then CookieValue(Serialize(jar), key)
    else if key in local then Some(local[key])
    else None
  }

  /** The cookie jar after clear() as written: localStorage is emptied first, so the
      consent test that follows always fails and no cookie is expired. */
  function ClearedJarAsWritten(hasWindow: bool, local: map<string, string>, jar: seq<Cookie>): seq<Cookie>
  {
    var localAfter: map<string, string> := if hasWindow then map[] else local;
    if hasWindow && Consent(localAfter) then [] else jar
  }

  /** The cookie jar after the intended clear(): with consent every cookie is expired. */
  function ClearedJar(hasWindow: bool, local: map<string, string>, jar: seq<Cookie>): seq<Cookie>
  {
    if hasWindow && Consent(local) then [] else jar
  }

  lemma StripBlanksSteps(c: string)
    ensures c != [] && c[0] == ' ' ==> StripBlanks(c) == StripBlanks(c[1..])
    ensures (c == [] || c[0] != ' ') ==> StripBlanks(c) == c
  {
  }

  /** One entry of the serialised jar, once its leading space is stripped, is the
      cookie's text. */
  lemma EntryStripped(jar: seq<Cookie>, i: nat)
    requires WellFormedJar(jar) && i < |jar|
    ensures StripBlanks(Entries(jar)[i]) == EntryText(jar[i])
    ensures ';' !in Entries(jar)[i]
  {
    var c := jar[i];
    TextStripped(if i == 0 then "" else " ", c);
  }

  lemma TextStripped(pre: string, c: Cookie)
    requires pre == "" || pre == " "
    requires ValidName(c.name) && ';' !in c.value
    ensures StripBlanks(pre + EntryText(c)) == EntryText(c)
    ensures ';' !in pre + EntryText(c)
  {
    var e := EntryText(c);
    EntryTextFacts(c);
    StripBlanksSteps(e);
    if pre == " " {
      StripBlanksSteps(pre + e);
      assert (pre + e)[1..] == e;
    } else {
      assert pre + e == e;
    }
  }

  lemma EntryTextFacts(c: Cookie)
    requires ValidName(c.name) && ';' !in c.value
    ensures EntryText(c)[0] == c.name[0] && ';' !in EntryText(c)
  {
    assert EntryText(c) == c.name + ("=" + c.value);
  }

  /** A cookie's text starts with "name=" exactly when it is that cookie, and what
      follows is its value. */
  lemma EntryMatches(c: Cookie, name: string)
    requires ValidName(c.name) && '=' !in name
    ensures StartsWith(EntryText(c), name + "=") <==> c.name == name
    ensures c.name == name ==> EntryText(c)[|name + "="|..] == c.value
  {
    var e := EntryText(c);
    var nameEQ := name + "=";
    if c.name != name {
      if |name| < |c.name| {
        assert e[|name|] == c.name[|name|];
        assert c.name[|name|] in c.name;
        assert nameEQ[|name|] == '=';
      } else if |name| > |c.name| {
        assert e[|c.name|] == '=';
        assert nameEQ[|c.name|] == name[|c.name|];
        assert name[|c.name|] in name;
      } else {
        assert e[..|name|] == c.name;
        assert nameEQ[..|name|] == name;
      }
    }
  }

  lemma {:induction false} FirstMatchEntries(jar: seq<Cookie>, k: nat, name: string)
    requires WellFormedJar(jar) && k <= |jar| && '=' !in name
    ensures FirstMatch(Entries(jar)[k..], name + "=") == Lookup(jar[k..], name)
    decreases |jar| - k
  {
    if k < |jar| {
      FirstMatchEntries(jar, k + 1, name);
      EntryStripped(jar, k);
      EntryMatches(jar[k], name);
      assert Entries(jar)[k..][1..] == Entries(jar)[k + 1..];
      assert jar[k..][1..] == jar[k + 1..];
    }
  }

  /** The cookie parser reads back exactly what the jar holds: for well-formed cookies,
      getCookie finds the first cookie of the name and returns its value, and null when
      there is none. */
  lemma CookieRoundTrip(jar: seq<Cookie>, name: string)
    requires WellFormedJar(jar) && '=' !in name
    ensures CookieValue(Serialize(jar), name) == Lookup(jar, name)
  {
    if jar == [] {
      EmptyCookieReadsNothing(name);
    } else {
      SerializedEntries(jar);
      FirstMatchEntries(jar, 0, name);
      assert Entries(jar)[0..] == Entries(jar) && jar[0..] == jar;
    }
  }

  /** An empty `document.cookie` holds no cookie of any name. */
  lemma EmptyCookieReadsNothing(name: string)
    ensures CookieValue(Serialize([]), name) == None
  {
    EmptyJarSerializesEmpty();
    assert Split("", ';') == [""];
    BlankEntryMatchesNothing(name + "=");
  }

  lemma EmptyJarSerializesEmpty()
    ensures Serialize([]) == ""
  {
    assert Entries([]) == [];
  }

  /** A lone empty entry holds no cookie. */
  lemma BlankEntryMatchesNothing(nameEQ: string)
    requires |nameEQ| > 0
    ensures FirstMatch([""], nameEQ) == None
  {
    assert [""][1..] == [];
    assert !StartsWith("", nameEQ);
  }

  /** After setItem(key, value) getItem(key) is that value, whether or not cookies are
      accepted and whatever `cookieDays` is. */
  lemma SetThenGet(local: map<string, string>, jar: seq<Cookie>, key: string, value: string, days: int)
    requires WellFormedJar(jar) && ValidName(key) && ';' !in value
    ensures var local' := local[key := value];
      var jar' := if Consent(local') then SetCookieJar(jar, key, value, days) else jar;
      ItemValue(true, local', jar', key) == Some(value)
  {
    var local' := local[key := value];
    if Consent(local') {
      var jar' := SetCookieJar(jar, key, value, days);
      if days > 0 {
        UpsertWellFormed(jar, key, value);
      } else {
        ExpireFacts(jar, key);
      }
      CookieRoundTrip(jar', key);
    }
  }

  /** After removeItem(key) getItem(key) is null: with consent the cookie is expired too;
      without it the cookie is left but not read. */
  lemma RemoveThenGet(local: map<string, string>, jar: seq<Cookie>, key: string)
    requires WellFormedJar(jar) && '=' !in key
    ensures var local' := local - {key};
      var jar' := if Consent(local') then Expire(jar, key) else jar;
      ItemValue(true, local', jar', key) == None
  {
    var local' := local - {key};
    if Consent(local') {
      ExpireFacts(jar, key);
      CookieRoundTrip(Expire(jar, key), key);
    }
  }

  /** clear() as written never expires a cookie, even when the user accepted cookies;
      the intended clear() leaves no cookie then. */
  lemma ClearKeepsCookies(local: map<string, string>, jar: seq<Cookie>)
    requires Consent(local) && jar != []
    ensures ClearedJarAsWritten(true, local, jar) == jar != []
    ensures ClearedJar(true, local, jar) == []
  {
  }

  /** The first entry's name as written back by clear(): the text before its first '=',
      or all of it. */
  function EntryName(cookie: string): string
  {
    match IndexOf(cookie, "=")
    case Some(eqPos) => cookie[..eqPos]
    case None => cookie
  }

  /** The first '=' of a text whose head holds none ends the head. */
  lemma {:induction false} FirstEquals(head: string, rest: string)
    requires '=' !in head
    ensures IndexOf(head + "=" + rest, "=") == Some(|head|)
    decreases |head|
  {
    var s := head + "=" + rest;
    if head == [] {
      assert s[..1] == "=";
    } else {
      assert s[..1][0] == head[0];
      assert s[1..] == head[1..] + "=" + rest;
      assert '=' !in head[1..] by { assert forall c :: c in head[1..] ==> c in head; }
      FirstEquals(head[1..], rest);
    }
  }

  lemma EntryNameOf(jar: seq<Cookie>, i: nat)
    requires WellFormedJar(jar) && i < |jar|
    ensures StripBlanks(EntryName(Entries(jar)[i])) == jar[i].name
  {
    var c := jar[i];
    var pre: string := if i == 0 then "" else " ";
    var head := pre + c.name;
    assert Entries(jar)[i] == head + "=" + c.value;
    FirstEquals(head, c.value);
    assert (head + "=" + c.value)[..|head|] == head;
    StripBlanksSteps(head);
    if i > 0 {
      assert head[1..] == c.name;
      StripBlanksSteps(c.name);
    }
  }

  /** `document.cookie` splits back into the jar's entries. */
  lemma SerializedEntries(jar: seq<Cookie>)
    requires WellFormedJar(jar) && jar != []
    ensures Split(Serialize(jar), ';') == Entries(jar)
  {
    forall i | 0 <= i < |jar|
      ensures ';' !in Entries(jar)[i]
    {
      EntryStripped(jar, i);
    }
    SplitJoin(Entries(jar), ';');
  }

  /** The names of the first i cookies. */
  function NamesUpTo(jar: seq<Cookie>, i: nat): set<string>
    requires i <= |jar|
  {
    set k | 0 <= k < i :: jar[k].name
  }

  /** The cookies of the jar whose names are not in `names`, in order. */
  function Kept(jar: seq<Cookie>, names: set<string>): seq<Cookie>
  {
    Filter(jar, (c: Cookie) => c.name !in names)
  }

  lemma {:induction false} KeptNothingRemoved(jar: seq<Cookie>)
    ensures Kept(jar, {}) == jar
    decreases |jar|
  {
    if jar != [] {
      KeptNothingRemoved(jar[1..]);
    }
  }

  /** Expiring one more name from what is kept. */
  lemma {:induction false} ExpireKept(jar: seq<Cookie>, names: set<string>, n: string)
    ensures Expire(Kept(jar, names), n) == Kept(jar, names + {n})
    decreases |jar|
  {
    if jar != [] {
      ExpireKept(jar[1..], names, n);
      var rest := Kept(jar[1..], names);
      var head: seq<Cookie> := if jar[0].name !in names + {n} then [jar[0]] else [];
      assert Kept(jar, names + {n}) == head + Kept(jar[1..], names + {n});
      if jar[0].name !in names {
        assert Kept(jar, names) == [jar[0]] + rest;
        assert ([jar[0]] + rest)[1..] == rest;
        assert Expire([jar[0]] + rest, n) == head + Expire(rest, n);
      } else {
        assert Kept(jar, names) == rest;
        assert head == [];
      }
    }
  }

  /** The state of clear()'s loop after visiting entry i. */
  lemma ExpireStep(orig: seq<Cookie>, i: nat)
    requires WellFormedJar(orig) && i < |orig|
    ensures Expire(Kept(orig, NamesUpTo(orig, i)), StripBlanks(EntryName(Entries(orig)[i]))) ==
      Kept(orig, NamesUpTo(orig, i + 1))
  {
    EntryNameOf(orig, i);
    ExpireKept(orig, NamesUpTo(orig, i), orig[i].name);
    NamesUpToStep(orig, i);
  }

  lemma NamesUpToStep(jar: seq<Cookie>, i: nat)
    requires i < |jar|
    ensures NamesUpTo(jar, i) + {jar[i].name} == NamesUpTo(jar, i + 1)
  {
  }

  lemma NothingRemains(orig: seq<Cookie>)
    ensures Kept(orig, NamesUpTo(orig, |orig|)) == []
  {
    var names := NamesUpTo(orig, |orig|);
    FilterContents(orig, (c: Cookie) => c.name !in names);
    assert forall k :: 0 <= k < |orig| ==> orig[k].name in names;
  }

  class Storage {
    /** The page has a window (false while rendering on the server). */
    const hasWindow: bool
    /** localStorage. */
    var local: map<string, string>
    /** The browser's cookies for the site. */
    var jar: seq<Cookie>

    constructor (hasWindow: bool, local: map<string, string>, jar: seq<Cookie>)
      ensures this.hasWindow == hasWindow && this.local == local && this.jar == jar
    {
      this.hasWindow := hasWindow;
      this.local := local;
      this.jar := jar;
    }

    function HasCookieConsent(): bool
      reads this
    {
      hasWindow && Consent(local)
    }

    method SetCookie(name: string, value: string, days: int)
      modifies this`jar
      ensures jar == if hasWindow then SetCookieJar(old(jar), name, value, days) else old(jar)
    {
      if !hasWindow {
        return;
      }
      jar := SetCookieJar(jar, name, value, days);
    }

    /** getCookie: split `document.cookie` on ';', strip each entry's leading spaces, and
        return the rest of the first entry starting with "name=". */
    method GetCookie(name: string) returns (r: Option<string>)
      ensures r == if hasWindow then CookieValue(Serialize(jar), name) else None
    {
      if !hasWindow {
        return None;
      }
      var nameEQ := name + "=";
      var ca := Split(Serialize(jar), ';');
      for i := 0 to |ca|
        invariant FirstMatch(ca, nameEQ) == FirstMatch(ca[i..], nameEQ)
      {
        var c := ca[i];
        while |c| > 0 && c[0] == ' '
          invariant StripBlanks(c) == StripBlanks(ca[i])
          decreases |c|
        {
          StripBlanksSteps(c);
          c := c[1..];
        }
        StripBlanksSteps(c);
        assert ca[i..][1..] == ca[i + 1..];
        if StartsWith(c, nameEQ) {
          return Some(c[|nameEQ|..]);
        }
      }
      return None;
    }

    method SetItem(key: string, value: string, cookieDays: int)
      modifies this
      ensures hasWindow ==> local == old(local)[key := value]
      ensures hasWindow ==> jar == if Consent(local) then SetCookieJar(old(jar), key, value, cookieDays) else old(jar)
      ensures !hasWindow ==> local == old(local) && jar == old(jar)
    {
      if !hasWindow {
        return;
      }
      local := local[key := value];
      if HasCookieConsent() {
        SetCookie(key, value, cookieDays);
      }
    }

    /** getItem: with consent a cookie of that name wins; otherwise localStorage. */
    method GetItem(key: string) returns (r: Option<string>)
      ensures r == ItemValue(hasWindow, local, jar, key)
    {
      if !hasWindow {
        return None;
      }
      var localStorageValue := if key in local then Some(local[key]) else None;
      if HasCookieConsent() {
        var cookieValue := GetCookie(key);
        if cookieValue.Some? {
          return cookieValue;
        }
      }
      return localStorageValue;
    }

    method RemoveItem(key: string)
      modifies this
      ensures hasWindow ==> local == old(local) - {key}
      ensures hasWindow ==> jar == if Consent(local) then Expire(old(jar), key) else old(jar)
      ensures !hasWindow ==> local == old(local) && jar == old(jar)
    {
      if !hasWindow {
        return;
      }
      local := local - {key};
      if HasCookieConsent() {
        jar := Expire(jar, key);
      }
    }

    /** The loop of clear(): expire every cookie named in `document.cookie`. */
    method ExpireListedCookies()
      modifies this`jar
      ensures WellFormedJar(old(jar)) ==> jar == []
    {
      ghost var orig := jar;
      ghost var wf := WellFormedJar(orig) && orig != [];
      var cookies := Split(Serialize(jar), ';');
      if wf {
        SerializedEntries(orig);
        KeptNothingRemoved(orig);
        assert NamesUpTo(orig, 0) == {};
      }
      for i := 0 to |cookies|
        invariant wf ==> cookies == Entries(orig) && jar == Kept(orig, NamesUpTo(orig, i))
        invariant orig == [] ==> jar == []
      {
        var cookie := cookies[i];
        var name := EntryName(cookie);
        if wf {
          ExpireStep(orig, i);
        }
        jar := Expire(jar, StripBlanks(name));
      }
      if wf {
        NothingRemains(orig);
      }
    }

    /** The consent branch of clear(), taken on the consent value it was given. */
    method ExpireIfConsented(consent: bool)
      modifies this`jar
      ensures consent && WellFormedJar(old(jar)) ==> jar == []
      ensures !consent ==> jar == old(jar)
    {
      if consent {
        ExpireListedCookies();
      }
    }

    /** clear() as written: localStorage is emptied before the consent check. */
    method ClearAsWritten()
      modifies this
      ensures hasWindow ==> local == map[]
      ensures !hasWindow ==> local == old(local)
      ensures jar == ClearedJarAsWritten(hasWindow, old(local), old(jar)) == old(jar)
    {
      if !hasWindow {
        return;
      }
      local := map[];
      var consent := HasCookieConsent();
      ExpireIfConsented(consent);
    }

    /** clear() with the consent check made before localStorage is emptied. */
    method Clear()
      modifies this
      ensures hasWindow ==> local == map[]
      ensures !hasWindow ==> local == old(local)
      ensures WellFormedJar(old(jar)) ==> jar == ClearedJar(hasWindow, old(local), old(jar))
      ensures !(hasWindow && Consent(old(local))) ==> jar == old(jar)
    {
      if !hasWindow {
        return;
      }
      var consent := HasCookieConsent();
      local := map[];
      ExpireIfConsented(consent);
    }

    /** setJSON: stores the value's JSON text. */
    method SetJSON<T>(key: string, value: T, stringify: T -> string, cookieDays: int)
      modifies this
      ensures hasWindow ==> local == old(local)[key := stringify(value)]
      ensures hasWindow ==> jar == if Consent(local) then SetCookieJar(old(jar), key, stringify(value), cookieDays) else old(jar)
      ensures !hasWindow ==> local == old(local) && jar == old(jar)
    {
      SetItem(key, stringify(value), cookieDays);
    }

    /** getJSON: null when the item is missing or its text does not parse; `parse`
        stands for JSON.parse, None for a thrown error. */
    method GetJSON<T>(key: string, parse: string -> Option<T>) returns (r: Option<T>)
      ensures ItemValue(hasWindow, local, jar, key).None? ==> r.None?
      ensures ItemValue(hasWindow, local, jar, key).Some? ==> r == parse(ItemValue(hasWindow, local, jar, key).value)
    {
      var value := GetItem(key);
      if value.None? {
        return None;
      }
      return parse(value.value);
    }
  }
}
