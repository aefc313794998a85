/**
 * subscribeUser (Backend/controller/subscribeController.js) over the
 * subscriber collection, whose `email` path is trimmed, lower-cased, unique
 * and checked against an e-mail pattern (Backend/model/subscribeModel.js).
 */
module SubscribeController {
  import opened Js
  import opened Text

  /** The stored form of an address: the `trim` and `lowercase` setters, which also apply to the lookup. */
  function NormalizeEmail(s: string): (r: string)
    ensures forall i :: 0 <= i < |r| ==> !IsAsciiUpper(r[i])
    ensures r == [] || (!IsSpace(r[0]) && !IsSpace(r[|r| - 1]))
  {
    LowerOfTrimmed(Trim(s));
    ToLower(Trim(s))
  }

  lemma LowerOfTrimmed(t: string)
    requires t == [] || (!IsSpace(t[0]) && !IsSpace(t[|t| - 1]))
    ensures var r := ToLower(t);
      && (forall i :: 0 <= i < |r| ==> !IsAsciiUpper(r[i]))
      && (r == [] || (!IsSpace(r[0]) && !IsSpace(r[|r| - 1])))
  {
    if t != [] {
      LowerCharFacts(t[0]);
      LowerCharFacts(t[|t| - 1]);
    }
    forall i | 0 <= i < |t| ensures !IsAsciiUpper(ToLower(t)[i]) {
      LowerCharFacts(t[i]);
    }
  }

  /** A stored address is already in stored form, so looking it up again finds the same record. */
  lemma NormalizeEmailIdempotent(s: string)
    ensures NormalizeEmail(NormalizeEmail(s)) == NormalizeEmail(s)
  {
    var r := NormalizeEmail(s);
    if r != [] {
      assert TrimStart(r) == r;
      assert TrimEnd(r) == r;
    }
    assert Trim(r) == r;
    assert ToLower(r) == r by {
      forall i | 0 <= i < |r| ensures ToLower(r)[i] == r[i] {
        assert !IsAsciiUpper(r[i]);
      }
    }
  }

  predicate NoDuplicates(emails: seq<string>) {
    forall i, j :: 0 <= i < j < |emails| ==> emails[i] != emails[j]
  }

  function Occurrences(emails: seq<string>, e: string): (n: nat)
    ensures n <= |emails|
    ensures n == 0 <==> e !in emails
  {
    if emails == [] then 0 else (if emails[0] == e then 1 else 0) + Occurrences(emails[1..], e)
  }

  lemma {:induction false} OccursOnce(emails: seq<string>, e: string)
    requires NoDuplicates(emails) && e in emails
    ensures Occurrences(emails, e) == 1
  {
    if emails[0] == e {
      assert e !in emails[1..] by {
        forall i | 0 <= i < |emails[1..]| ensures emails[1..][i] != e {
          assert emails[1..][i] == emails[i + 1];
        }
      }
    } else {
      assert NoDuplicates(emails[1..]) by {
        forall i, j | 0 <= i < j < |emails[1..]| ensures emails[1..][i] != emails[1..][j] {
          assert emails[1..][i] == emails[i + 1] && emails[1..][j] == emails[j + 1];
        }
      }
      OccursOnce(emails[1..], e);
    }
  }

  /** A filter value with a key starting with `$` is read as query operators, not as an address. */
  predicate IsOperatorObject(v: Value) {
    v.Obj? && exists k :: k in v.fields && |k| > 0 && k[0] == '$'
  }

  /**
   * `Subscriber.findOne({ email })`: an operator object is MongoDB's to
   * evaluate (`operatorLookup`); an array is `$in` of its items, each cast
   * and normalised; any other value is cast and normalised and compared.
   * None is a cast error, which the handler's catch answers with 500.
   */
  function Lookup(email: Value, emails: seq<string>, operatorLookup: (map<string, Value>, seq<string>) -> Option<bool>): (r: Option<bool>)
    ensures IsOperatorObject(email) ==> r == operatorLookup(email.fields, emails)
    ensures !IsOperatorObject(email) && email.Arr? ==>
      && (r.Some? <==> forall i :: 0 <= i < |email.items| ==> CastString(email.items[i]).Some?)
      && (r.Some? ==> (r.value <==> exists i :: 0 <= i < |email.items| && NormalizeEmail(CastString(email.items[i]).value) in emails))
    ensures !IsOperatorObject(email) && !email.Arr? ==>
      && (r.Some? <==> CastString(email).Some?)
      && (r.Some? ==> (r.value <==> NormalizeEmail(CastString(email).value) in emails))
  {
    if IsOperatorObject(email) then operatorLookup(email.fields, emails)
    else if email.Arr? then
      var cast := CastEach(CastString, email.items);
      if cast.None? then None
      else
        var hit := exists i :: 0 <= i < |cast.value| && NormalizeEmail(cast.value[i]) in emails;
        Some(hit)
    else
      var c := CastString(email);
      if c.None? then None else Some(NormalizeEmail(c.value) in emails)
  }

  /** An array holding a stored address, after trim and lower-case, finds that subscriber through `$in`. */
  lemma ArrayEmailFindsStored(a: string, emails: seq<string>, operatorLookup: (map<string, Value>, seq<string>) -> Option<bool>)
    requires NormalizeEmail(a) in emails
    ensures Lookup(Arr([Str(a)]), emails, operatorLookup) == Some(true)
  {
    var email := Arr([Str(a)]);
    assert !IsOperatorObject(email);
    assert CastString(email.items[0]) == Some(a);
    var r := Lookup(email, emails, operatorLookup);
    assert r.Some?;
    assert NormalizeEmail(CastString(email.items[0]).value) in emails;
  }

  /** An object carrying a string `_id` is looked up as that id. */
  lemma IdObjectLooksUpId(id: string, emails: seq<string>, operatorLookup: (map<string, Value>, seq<string>) -> Option<bool>)
    requires id != ""
    ensures Lookup(Obj(map["_id" := Str(id)]), emails, operatorLookup) == Lookup(Str(id), emails, operatorLookup)
  {
    var email := Obj(map["_id" := Str(id)]);
    assert !IsOperatorObject(email) by {
      forall k | k in email.fields ensures !(|k| > 0 && k[0] == '$') {
        assert k == "_id";
      }
    }
    assert HasStringId(email);
  }

  class SubscriberList {
    /** The stored addresses, in insertion order. */
    var emails: seq<string>
    /** The schema's e-mail pattern, applied to the stored form. */
    const matchesPattern: string -> bool
    /** Whether a filter of query operators matches one of the stored addresses; None when MongoDB rejects it. */
    const operatorLookup: (map<string, Value>, seq<string>) -> Option<bool>

    ghost predicate Valid()
      reads this
    {
      NoDuplicates(emails)
    }

    constructor (matchesPattern: string -> bool, operatorLookup: (map<string, Value>, seq<string>) -> Option<bool>)
      ensures Valid() && emails == []
      ensures this.matchesPattern == matchesPattern && this.operatorLookup == operatorLookup
    {
      emails := [];
      this.matchesPattern := matchesPattern;
      this.operatorLookup := operatorLookup;
    }

    /**
     * subscribeUser: 400 without an address. The lookup comes first: a
     * cast error is 500 and a match is 200 with success false. Then the
     * create casts the value; a cast error, an empty address or one the
     * pattern rejects is 500, and an address already stored is the
     * duplicate key, again 200. Otherwise it is stored and the reply is
     * 201. `mailSent` is the welcome e-mail's outcome: sendEmail reports
     * failure by returning false, so it never changes the reply.
     */
    method Subscribe(email: Value, mailSent: bool) returns (status: int, success: bool)
      requires Valid()
      modifies this
      ensures Valid()
      ensures status == 200 || status == 201 || status == 400 || status == 500
      ensures success <==> status == 201
      ensures status != 201 ==> emails == old(emails)
      ensures status == 400 <==> !Truthy(email)
      ensures Truthy(email) ==>
        var found := Lookup(email, old(emails), operatorLookup);
        var c := CastString(email);
        && (found.None? ==> status == 500)
        && (found == Some(true) ==> status == 200)
        && (found == Some(false) && c.None? ==> status == 500)
        && (found == Some(false) && c.Some? ==>
              var e := NormalizeEmail(c.value);
              && (e == "" || !matchesPattern(e) ==> status == 500)
              && (e != "" && matchesPattern(e) && e in old(emails) ==> status == 200)
              && (e != "" && matchesPattern(e) && e !in old(emails) ==> status == 201 && emails == old(emails) + [e]))
      ensures !IsOperatorObject(email) && CastString(email).Some? && (status == 200 || status == 201) ==>
        Occurrences(emails, NormalizeEmail(CastString(email).value)) == 1
    {
      if !Truthy(email) {
        return 400, false;
      }
      var c := CastString(email);
      var found := Lookup(email, emails, operatorLookup);
      if found.None? {
        return 500, false;
      }
      if found.value {
        if !IsOperatorObject(email) && c.Some? {
          OccursOnce(emails, NormalizeEmail(c.value));
        }
        return 200, false;
      }
      if c.None? {
        return 500, false;
      }
      var e := NormalizeEmail(c.value);
      if e == "" || !matchesPattern(e) {
        return 500, false;
      }
      if e in emails {
        // the unique index: error 11000
        OccursOnce(emails, e);
        return 200, false;
      }
      emails := emails + [e];
      assert NoDuplicates(emails) by {
        forall i, j | 0 <= i < j < |emails| ensures emails[i] != emails[j] {
          if j == |emails| - 1 {
            assert emails[i] == old(emails)[i];
          }
        }
      }
      OccursOnce(emails, e);
      return 201, true;
    }
  }

  /** Two spellings that differ only in surrounding blanks and ASCII case are one subscriber. */
  lemma SameSubscriber(a: string, b: string)
    requires Trim(a) == Trim(b)
    ensures NormalizeEmail(a) == NormalizeEmail(b)
  {
  }
}
