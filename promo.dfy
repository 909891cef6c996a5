/** The promos collection (models/Promo.js): promotions of a place, looked up
    and counted by their `promoId` string, listed with an active-window
    filter, a sort choice and pagination. */
module PromoModel {
  import opened Common
  import opened Listing

  datatype Promo = Promo(
    id: Oid,
    promoId: string,
    placeId: string,
    title: string,
    description: Option<string>,
    tag: Option<string>,
    promoStart: int,
    promoEnd: int,
    isActive: bool,
    likesCount: int,
    savesCount: int,
    createdAt: int,
    updatedAt: int)

  /** What `createPromo` is given; None is a field left out. */
  datatype NewPromo = NewPromo(
    promoId: string,
    placeId: string,
    title: string,
    description: Option<string>,
    tag: Option<string>,
    promoStart: int,
    promoEnd: int,
    isActive: Option<bool>)

  /** The two counters `updatePromoCounts` is called with. */
  datatype PromoCounter = PromoLikes | PromoSaves

  ghost predicate PromosValid(t: Table<string, Promo>) {
    forall k :: k in t.rows ==> t.rows[k].promoId == k && t.rows[k].id.n < t.nextId
  }

  /** The record `createPromo` inserts: active unless told otherwise, both
      counters 0. */
  function NewPromoRecord(id: Oid, p: NewPromo, now: int): (r: Promo)
    ensures r.likesCount == 0 && r.savesCount == 0
    ensures r.isActive == (p.isActive.None? || p.isActive.value)
    ensures r.promoId == p.promoId && r.placeId == p.placeId
    ensures r.promoStart == p.promoStart && r.promoEnd == p.promoEnd
  {
    Promo(id, p.promoId, p.placeId, p.title, p.description, p.tag, p.promoStart, p.promoEnd,
          if p.isActive.Some? then p.isActive.value else true, 0, 0, now, now)
  }

  /** `createPromo`, with promos addressed by promoId (a second promo under
      a promoId in use is refused). */
  function InsertPromo(t: Table<string, Promo>, p: NewPromo, now: int): (Inserted<Promo>, Table<string, Promo>) {
    if p.promoId in t.rows then (DuplicateKey, t)
    else
      var r := NewPromoRecord(t.Fresh(), p, now);
      (Inserted(r), Table(t.rows[p.promoId := r], t.nextId + 1))
  }

  function PromoCounterValue(p: Promo, c: PromoCounter): int {
    match c
    case PromoLikes => p.likesCount
    case PromoSaves => p.savesCount
  }

  /** `updatePromoCounts`: `$inc` of one counter (and updatedAt). */
  function AddToPromoCounter(t: Table<string, Promo>, promoId: string, c: PromoCounter, increment: int, now: int)
    : Table<string, Promo>
  {
    if promoId in t.rows then
      var p := t.rows[promoId];
      var p' := match c
        case PromoLikes => p.(likesCount := p.likesCount + increment, updatedAt := now)
        case PromoSaves => p.(savesCount := p.savesCount + increment, updatedAt := now);
      t.(rows := t.rows[promoId := p'])
    else t
  }

  /** A count update moves the named counter by the increment and nothing
      else but updatedAt; other promos are untouched. */
  lemma {:induction false} AddToPromoCounterTouchesOne(t: Table<string, Promo>, promoId: string, c: PromoCounter,
                                                       increment: int, now: int)
    ensures var t' := AddToPromoCounter(t, promoId, c, increment, now);
      && t'.rows.Keys == t.rows.Keys && t'.nextId == t.nextId
      && (promoId in t.rows ==>
            && PromoCounterValue(t'.rows[promoId], c) == PromoCounterValue(t.rows[promoId], c) + increment
            && (forall d :: d != c ==> PromoCounterValue(t'.rows[promoId], d) == PromoCounterValue(t.rows[promoId], d))
            && t'.rows[promoId].(likesCount := t.rows[promoId].likesCount, savesCount := t.rows[promoId].savesCount,
                                 updatedAt := t.rows[promoId].updatedAt) == t.rows[promoId])
      && (forall k :: k in t.rows && k != promoId ==> t'.rows[k] == t.rows[k])
  {
  }

  // ---------------------------------------------------------------------------
  // findPromos

  /** The active window: switched on, started, and not yet ended. */
  predicate ActiveAt(p: Promo, now: int) {
    p.isActive && p.promoStart <= now && now <= p.promoEnd
  }

  /** The filters of `findPromos`; None is an absent parameter. `active` is
      the query-string value, or `Some("true")` for the literal `true`. */
  datatype PromoFilters = PromoFilters(placeId: Option<string>, tag: Option<string>, active: Option<string>)

  predicate PromoMatches(p: Promo, f: PromoFilters, now: int) {
    && (f.placeId.Some? && f.placeId.value != "" ==> p.placeId == f.placeId.value)
    && (f.tag.Some? && f.tag.value != "" ==> p.tag == f.tag)
    && (f.active == Some("true") ==> ActiveAt(p, now))
  }

  /** The sort key, largest first: likesCount for 'popular', the negated
      promoEnd for 'endingSoon' (so the soonest end comes first), createdAt
      otherwise. */
  function PromoSortKey(sort: string): Promo -> int {
    if sort == "popular" then (p: Promo) => p.likesCount
    else if sort == "endingSoon" then (p: Promo) => -p.promoEnd
    else (p: Promo) => p.createdAt
  }

  /** Under 'endingSoon' the listing runs by promoEnd ascending. */
  lemma {:induction false} EndingSoonAscending(s: seq<Promo>, i: int, j: int)
    requires SortedDesc(s, PromoSortKey("endingSoon"))
    requires 0 <= i < j < |s|
    ensures s[i].promoEnd <= s[j].promoEnd
  {
    assert PromoSortKey("endingSoon")(s[i]) >= PromoSortKey("endingSoon")(s[j]);
  }

  ghost function MatchingPromos(rows: map<string, Promo>, f: PromoFilters, now: int): set<Promo> {
    set p | p in rows.Values && PromoMatches(p, f, now)
  }

  datatype PromoPage = PromoPage(promos: seq<Promo>, page: int, limit: int, total: nat)

  /** `findPromos`: one page of the matching promos in sort order, with the
      number of all matching promos. None is the store refusing a negative
      skip. */
  ghost function FindPromos(rows: map<string, Promo>, f: PromoFilters, sort: string, page: Option<int>, limit: Option<int>,
                            now: int): (r: Option<PromoPage>)
    ensures var p := PageParam(page, 1);
      var l := PageParam(limit, 20);
      && (r.None? <==> Skip(p, l) < 0)
      && (r.Some? ==>
            && r.value.page == p && r.value.limit == l
            && r.value.total == |MatchingPromos(rows, f, now)|
            && r.value.promos == Window(Ordered(MatchingPromos(rows, f, now), PromoSortKey(sort)), Skip(p, l), l).value
            && SortedDesc(r.value.promos, PromoSortKey(sort))
            && (forall i :: 0 <= i < |r.value.promos| ==>
                  r.value.promos[i] in rows.Values && PromoMatches(r.value.promos[i], f, now))
            && (l > 0 ==> |r.value.promos| <= l))
  {
    var p := PageParam(page, 1);
    var l := PageParam(limit, 20);
    var hits := MatchingPromos(rows, f, now);
    if Skip(p, l) < 0 then None
    else
      var w := Window(Ordered(hits, PromoSortKey(sort)), Skip(p, l), l).value;
      PageOfOrdered(hits, PromoSortKey(sort), Skip(p, l), l);
      assert forall i :: 0 <= i < |w| ==> w[i] in hits;
      Some(PromoPage(w, p, l, |hits|))
  }

  /** With a positive limit every matching promo is listed, on exactly one
      page. */
  lemma FindPromosListsEachOnce(rows: map<string, Promo>, f: PromoFilters, sort: string, limit: int, now: int, x: Promo, q: int)
    requires limit >= 1
    requires x in rows.Values && PromoMatches(x, f, now)
    requires q >= 1
    ensures FindPromos(rows, f, sort, Some(q), Some(limit), now).Some?
    ensures x in FindPromos(rows, f, sort, Some(q), Some(limit), now).value.promos
      <==> q == PageNumber(Ordered(MatchingPromos(rows, f, now), PromoSortKey(sort)), limit, x)
  {
    assert PageParam(Some(q), 1) == q && PageParam(Some(limit), 20) == limit;
    MulMono(0, q - 1, limit);
    PageHoldsOnce(MatchingPromos(rows, f, now), PromoSortKey(sort), limit, q, x, FindPromos(rows, f, sort, Some(q), Some(limit), now).value.promos);
  }

  class PromoTable {
    var rows: map<string, Promo>
    var nextId: nat

    function Snap(): Table<string, Promo>
      reads this
    {
      Table(rows, nextId)
    }

    ghost predicate Valid()
      reads this
    {
      PromosValid(Snap())
    }

    constructor ()
      ensures Valid() && rows == map[] && nextId == 0
    {
      rows := map[];
      nextId := 0;
    }

    method CreatePromo(p: NewPromo, now: int) returns (r: Inserted<Promo>)
      requires Valid()
      modifies this
      ensures Valid()
      ensures (r, Snap()) == InsertPromo(old(Snap()), p, now)
    {
      if p.promoId in rows {
        return DuplicateKey;
      }
      var q := NewPromoRecord(Oid(nextId), p, now);
      rows := rows[p.promoId := q];
      nextId := nextId + 1;
      r := Inserted(q);
    }

    function FindPromoById(promoId: string): (r: Option<Promo>)
      reads this
      requires Valid()
      ensures r.Some? <==> promoId in rows
      ensures r.Some? ==> r.value.promoId == promoId && r.value in rows.Values
    {
      if promoId in rows then Some(rows[promoId]) else None
    }

    method UpdatePromoCounts(promoId: string, c: PromoCounter, increment: int, now: int)
      requires Valid()
      modifies this
      ensures Valid()
      ensures Snap() == AddToPromoCounter(old(Snap()), promoId, c, increment, now)
    {
      if promoId in rows {
        var p := rows[promoId];
        match c {
          case PromoLikes => p := p.(likesCount := p.likesCount + increment, updatedAt := now);
          case PromoSaves => p := p.(savesCount := p.savesCount + increment, updatedAt := now);
        }
        rows := rows[promoId := p];
      }
    }
  }
}
