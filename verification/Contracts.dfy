/** The uniqueness keys vBilling gives its Metronome contracts, and how it reads them back
    (internal/destinations/metronome/adapter.go). Keys are byte strings. */
module Contracts {
  import opened Text
  import opened Usage

  /** Parameters: the short hash (sixteen hexadecimal digits) and the calendar day of an instant. */
  datatype Naming = Naming(hash: string -> string, day: Time -> string)
  {
    ghost predicate Valid()
    {
      && (forall s :: |hash(s)| == 16 && Plain(hash(s)))
      && (forall t: Time :: |day(t)| == 10 && Plain(day(t)))
    }
  }

  /** Holds none of the characters a key is cut at. */
  predicate Plain(s: string) { ':' !in s && '@' !in s && '#' !in s }

  const MAX_KEY: nat := 128
  const CURRENT: string := "vbilling:"
  const LEGACY: string := "vbilling-"

  function RateCardToken(m: Naming, rateCard: string): string
  {
    if |rateCard| <= 64 then rateCard else "h" + m.hash(rateCard)
  }

  /** The n-th key for a rate card on one day. */
  function Key(m: Naming, tenant: string, rateCard: string, start: Time, n: nat): string
  {
    CURRENT + (RateCardToken(m, rateCard) + ("@" + Rest(m, start, n))) + (":" + m.hash(tenant))
  }

  /** The day, and a counter from the second key of a day on. */
  function Rest(m: Naming, start: Time, n: nat): string
  {
    m.day(start) + if n > 1 then "#" + Decimal(n) else ""
  }

  /** strings.CutPrefix. */
  function CutPrefix(s: string, prefix: string): (r: Option<string>)
    ensures r.Some? <==> prefix <= s
    ensures r.Some? ==> s == prefix + r.value
  {
    if prefix <= s then Some(s[|prefix|..]) else None
  }

  /** Reads a key back: the card token if the key is one of this tenant's, and "" if it is not. */
  function ContractRateCard(m: Naming, key: string, tenant: string): string
  {
    var current := CutPrefix(key, CURRENT);
    if current.Some? then
      var body := current.value;
      var i := LastIndexOf(body, ':');
      if i.None? || body[i.value + 1..] != m.hash(tenant) then ""
      else
        var j := LastIndexOf(body[..i.value], '@');
        if j.Some? && j.value > 0 then body[..j.value] else ""
    else
      var legacy := CutPrefix(key, LEGACY + tenant + "-");
      if legacy.Some? then RateCardToken(m, legacy.value) else ""
  }

  // ---- keys round-trip ----

  lemma LastIndexAt(a: string, ch: char, b: string)
    requires ch !in b
    ensures LastIndexOf(a + ([ch] + b), ch) == Some(|a|)
    ensures (a + ([ch] + b))[..|a|] == a && (a + ([ch] + b))[|a| + 1..] == b
  {
    var s := a + ([ch] + b);
    assert s[|a|] == ch;
    assert s[|a| + 1..] == b;
    OnlyLastIndex(s, ch, |a|);
  }

  lemma OnlyLastIndex(s: string, ch: char, i: nat)
    requires i < |s| && s[i] == ch && ch !in s[i + 1..]
    ensures LastIndexOf(s, ch) == Some(i)
  {
    hide LastIndexOf;
    var r := LastIndexOf(s, ch);
    forall j | 0 <= j < i ensures s[j..][i - j] == ch { }
  }

  lemma RestIsPlain(m: Naming, start: Time, n: nat)
    requires m.Valid() && n <= 9
    ensures ':' !in Rest(m, start, n) && '@' !in Rest(m, start, n) && 10 <= |Rest(m, start, n)| <= 12
  {
    assert Plain(m.day(start));
    assert Decimal(n) == [Digit(n)];
  }

  lemma BodyOfKey(m: Naming, tenant: string, rateCard: string, start: Time, n: nat)
    ensures CutPrefix(Key(m, tenant, rateCard, start, n), CURRENT)
      == Some(RateCardToken(m, rateCard) + ("@" + Rest(m, start, n)) + (":" + m.hash(tenant)))
  {
    var body := RateCardToken(m, rateCard) + ("@" + Rest(m, start, n)) + (":" + m.hash(tenant));
    assert Key(m, tenant, rateCard, start, n) == CURRENT + body;
    assert (CURRENT + body)[|CURRENT|..] == body;
  }

  /** Every key vBilling creates gives back its rate card, whatever characters that holds, to its own
      tenant and "" to a tenant with another hash; and it stays under the length limit. */
  lemma KeyRoundTrip(m: Naming, tenant: string, rateCard: string, start: Time, n: nat, other: string)
    requires m.Valid() && rateCard != "" && 1 <= n <= 9
    ensures var key := Key(m, tenant, rateCard, start, n);
      && ContractRateCard(m, key, tenant) == RateCardToken(m, rateCard) != ""
      && (m.hash(other) != m.hash(tenant) ==> ContractRateCard(m, key, other) == "")
      && |CURRENT| < |key| <= 103 < MAX_KEY
  {
    hide LastIndexOf, Rest, Decimal;
    var token := RateCardToken(m, rateCard);
    var head := token + ("@" + Rest(m, start, n));
    assert |token| <= 64 && token != "" by { assert Plain(m.hash(rateCard)); }
    BodyOfKey(m, tenant, rateCard, start, n);
    assert Plain(m.hash(tenant));
    LastIndexAt(head, ':', m.hash(tenant));
    RestIsPlain(m, start, n);
    LastIndexAt(token, '@', Rest(m, start, n));
  }

  lemma CutsAgree(a: string, b: string, c: string, d: string, ch: char)
    requires ch !in b && ch !in d && a + ([ch] + b) == c + ([ch] + d)
    ensures a == c && b == d
  {
    LastIndexAt(a, ch, b);
    LastIndexAt(c, ch, d);
  }

  lemma SameRest(m: Naming, start: Time, n: nat, start': Time, n': nat)
    requires m.Valid() && 1 <= n <= 9 && 1 <= n' <= 9 && Rest(m, start, n) == Rest(m, start', n')
    ensures m.day(start) == m.day(start') && n == n'
  {
    var a, b := Rest(m, start, n), Rest(m, start', n');
    assert a[..10] == m.day(start) && b[..10] == m.day(start');
    assert Decimal(n) == [Digit(n)] && Decimal(n') == [Digit(n')];
    if n > 1 { assert a[11] == Digit(n); }
    if n' > 1 { assert b[11] == Digit(n'); }
  }

  /** Two keys are the same exactly for the same card token, day, counter and tenant hash. */
  lemma KeysDistinct(m: Naming, tenant: string, rateCard: string, start: Time, n: nat, tenant': string,
                     rateCard': string, start': Time, n': nat)
    requires m.Valid() && 1 <= n <= 9 && 1 <= n' <= 9
    ensures Key(m, tenant, rateCard, start, n) == Key(m, tenant', rateCard', start', n') <==>
      && RateCardToken(m, rateCard) == RateCardToken(m, rateCard') && m.day(start) == m.day(start') && n == n'
      && m.hash(tenant) == m.hash(tenant')
  {
    if Key(m, tenant, rateCard, start, n) == Key(m, tenant', rateCard', start', n') {
      BodyOfKey(m, tenant, rateCard, start, n);
      BodyOfKey(m, tenant', rateCard', start', n');
      var a := RateCardToken(m, rateCard) + ("@" + Rest(m, start, n));
      var b := RateCardToken(m, rateCard') + ("@" + Rest(m, start', n'));
      assert Plain(m.hash(tenant)) && Plain(m.hash(tenant'));
      CutsAgree(a, m.hash(tenant), b, m.hash(tenant'), ':');
      RestIsPlain(m, start, n);
      RestIsPlain(m, start', n');
      CutsAgree(RateCardToken(m, rateCard), Rest(m, start, n), RateCardToken(m, rateCard'), Rest(m, start', n'), '@');
      SameRest(m, start, n, start', n');
    }
  }

  /** The keys of v0.2.0 do not name one tenant: another tenant also reads such a key as its own
      exactly when "<other>-" is a proper prefix of "<tenant>-<rate card>". */
  lemma LegacyKeyAmbiguous(m: Naming, tenant: string, rateCard: string, other: string)
    requires m.Valid()
    ensures ContractRateCard(m, LEGACY + tenant + "-" + rateCard, other) != "" <==>
      other + "-" < tenant + "-" + rateCard
  {
    var key := LEGACY + tenant + "-" + rateCard;
    assert key[8] == '-' && CURRENT[8] == ':';
    assert !(CURRENT <= key);
    var name := tenant + "-" + rateCard;
    assert key == LEGACY + name;
    var cut := CutPrefix(key, LEGACY + other + "-");
    assert LEGACY + other + "-" == LEGACY + (other + "-");
    if other + "-" <= name {
      assert name == other + "-" + name[|other| + 1..];
      assert key == LEGACY + (other + "-") + name[|other| + 1..];
    }
    if LEGACY + (other + "-") <= key {
      assert key[|LEGACY|..] == name;
      assert key[|LEGACY|..][..|other| + 1] == (LEGACY + (other + "-"))[|LEGACY|..];
      assert other + "-" <= name;
    }
  }

  // ---- different rate cards ----

  /** Two rate cards one token cannot tell apart: two long ones with one hash, or a short one that spells the
      token of a long one. */
  predicate ConfusedCards(m: Naming, a: string, b: string)
  {
    || (|a| > 64 && |b| > 64 && m.hash(a) == m.hash(b))
    || (|a| <= 64 < |b| && a == "h" + m.hash(b))
    || (|b| <= 64 < |a| && b == "h" + m.hash(a))
  }

  /** Different rate cards have different tokens, unless they are confused in this way. */
  lemma TokensDiffer(m: Naming, a: string, b: string)
    ensures RateCardToken(m, a) == RateCardToken(m, b) <==> a == b || ConfusedCards(m, a, b)
  {
    if |a| > 64 && |b| > 64 {
      assert ("h" + m.hash(a))[1..] == m.hash(a) && ("h" + m.hash(b))[1..] == m.hash(b);
    }
  }

  /** A confused pair has a rate card of more than 64 bytes in it. */
  lemma ShortCardsDiffer(m: Naming, a: string, b: string)
    requires |a| <= 64 && |b| <= 64
    ensures RateCardToken(m, a) == RateCardToken(m, b) <==> a == b
  {
    TokensDiffer(m, a, b);
  }

  /** The key of a contract vBilling made for this tenant on this rate card, in either format. */
  ghost predicate MadeFor(m: Naming, tenant: string, rateCard: string, key: string)
  {
    || key == LEGACY + tenant + "-" + rateCard
    || exists start: Time, n: nat :: 1 <= n <= 9 && key == Key(m, tenant, rateCard, start, n)
  }

  /** A v0.2.0 key, too, gives its own tenant back the rate card it was made for. */
  lemma LegacyRoundTrip(m: Naming, tenant: string, rateCard: string)
    ensures ContractRateCard(m, LEGACY + tenant + "-" + rateCard, tenant) == RateCardToken(m, rateCard)
  {
    var key := LEGACY + tenant + "-" + rateCard;
    var prefix := LEGACY + tenant + "-";
    assert key[8] == '-' && CURRENT[8] == ':';
    assert !(CURRENT <= key);
    assert key == prefix + rateCard && key[|prefix|..] == rateCard;
  }

  lemma MadeForReads(m: Naming, tenant: string, rateCard: string, key: string)
    requires m.Valid() && rateCard != "" && MadeFor(m, tenant, rateCard, key)
    ensures ContractRateCard(m, key, tenant) == RateCardToken(m, rateCard) != ""
  {
    hide ContractRateCard, Key;
    if key == LEGACY + tenant + "-" + rateCard {
      LegacyRoundTrip(m, tenant, rateCard);
    } else {
      var start: Time, n: nat :| 1 <= n <= 9 && key == Key(m, tenant, rateCard, start, n);
      KeyRoundTrip(m, tenant, rateCard, start, n, tenant);
    }
  }

  /** The key of one rate card is not read as another's. */
  lemma OtherCardsKey(m: Naming, tenant: string, a: string, b: string, key: string)
    requires m.Valid() && a != "" && MadeFor(m, tenant, a, key)
    ensures ContractRateCard(m, key, tenant) == RateCardToken(m, b) <==> a == b || ConfusedCards(m, a, b)
  {
    hide ContractRateCard, MadeFor, RateCardToken;
    MadeForReads(m, tenant, a, key);
    TokensDiffer(m, a, b);
  }
}
