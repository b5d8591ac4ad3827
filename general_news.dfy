/**
 * The general-news fallback of `getNews`: valid articles are kept once per
 * composite key `${id}-${url}-${headline}`, first occurrence first, and the
 * list is capped at `MaxUnique`.
 *
 * `Dedup` is the walk with the set of keys seen so far; `FirstOccurrences` is
 * an independent, positional description of the same list; `DedupGeneral` is
 * the loop of the source with its early `break`.
 */
module GeneralNews {
  import opened Common
  import opened Text
  import opened Records

  /** The cap on `unique`. */
  const MaxUnique: nat := 20

  /** How a template literal prints an optional string field: a missing one reads "undefined". */
  function FieldText(field: Option<string>): string
  {
    if field.Some? then field.value else "undefined"
  }

  /** `${art.id}-${art.url}-${art.headline}`. */
  function ArticleKey(a: RawNewsArticle): (key: string)
    ensures |IntText(a.id)| < |key| && key[|IntText(a.id)|] == '-'
  {
    IntText(a.id) + "-" + FieldText(a.url) + "-" + FieldText(a.headline)
  }

  /** The key opens with the text of `id` and a hyphen. */
  lemma KeyOpensWithId(a: RawNewsArticle)
    ensures var key, id := ArticleKey(a), IntText(a.id);
      |id| < |key| && key[..|id|] == id && key[|id|] == '-'
  {
    var id := IntText(a.id);
    assert ArticleKey(a) == id + ("-" + FieldText(a.url) + "-" + FieldText(a.headline));
  }

  /**
   * The id part of the key is unambiguous: the text of an id has no hyphen after
   * its first character, so the first hyphen after it ends the id, and two
   * articles with one key have one id.
   */
  lemma KeyDeterminesId(a: RawNewsArticle, b: RawNewsArticle)
    requires ArticleKey(a) == ArticleKey(b)
    ensures a.id == b.id
  {
    var key := ArticleKey(a);
    var ta, tb := IntText(a.id), IntText(b.id);
    KeyOpensWithId(a);
    KeyOpensWithId(b);
    assert |ta| == |tb|;
    assert ta == key[..|ta|] == tb;
    IntTextValue(a.id);
    IntTextValue(b.id);
  }

  /** The valid articles of `s` whose key is not in `seen` and has not occurred before them, in order. */
  function Dedup(valid: RawNewsArticle -> bool, s: seq<RawNewsArticle>, seen: set<string>): (r: seq<RawNewsArticle>)
    ensures |r| <= |s|
    ensures forall k :: 0 <= k < |r| ==> valid(r[k]) && ArticleKey(r[k]) !in seen
  {
    if s == [] then []
    else if !valid(s[0]) || ArticleKey(s[0]) in seen then Dedup(valid, s[1..], seen)
    else [s[0]] + Dedup(valid, s[1..], seen + {ArticleKey(s[0])})
  }

  /** The `for ... of` loop over the general feed, with `seen`, `unique` and its early `break`. */
  method DedupGeneral(general: seq<RawNewsArticle>, valid: RawNewsArticle -> bool) returns (unique: seq<RawNewsArticle>)
    ensures unique == Take(Dedup(valid, general, {}), MaxUnique)
  {
    var seen: set<string> := {};
    unique := [];
    var i := 0;
    while i < |general|
      invariant i <= |general| && |unique| < MaxUnique
      invariant unique + Dedup(valid, general[i..], seen) == Dedup(valid, general, {})
    {
      var art := general[i];
      ghost var rest := general[i..];
      assert rest[0] == art && rest[1..] == general[i + 1..];
      DedupStep(valid, rest, seen);
      if !valid(art) {
        i := i + 1;
        continue;
      }
      var key := ArticleKey(art);
      if key in seen {
        i := i + 1;
        continue;
      }
      Regroup(unique, [art], Dedup(valid, rest[1..], seen + {key}), Dedup(valid, rest, seen));
      seen := seen + {key};
      unique := unique + [art];
      i := i + 1;
      if |unique| >= MaxUnique {
        ghost var all := Dedup(valid, general, {});
        assert all[..|unique|] == unique;
        break;
      }
    }
    assert i == |general| ==> general[i..] == [];
  }

  // ----- Properties of the deduplicated list -----

  /** The keys of the articles in `s`. */
  function KeysOf(s: seq<RawNewsArticle>): set<string>
  {
    set k | 0 <= k < |s| :: ArticleKey(s[k])
  }

  /**
   * Every kept article passed validation, no two kept articles share a key, no
   * kept key was already seen, and only articles of the feed are kept, at most
   * as many as it has.
   */
  lemma {:induction false} DedupSound(valid: RawNewsArticle -> bool, s: seq<RawNewsArticle>, seen: set<string>)
    ensures var r := Dedup(valid, s, seen);
      && |r| <= |s|
      && (forall k :: 0 <= k < |r| ==> valid(r[k]) && ArticleKey(r[k]) !in seen && r[k] in s)
      && (forall j, k :: 0 <= j < k < |r| ==> ArticleKey(r[j]) != ArticleKey(r[k]))
  {
    if s != [] {
      if !valid(s[0]) || ArticleKey(s[0]) in seen {
        DedupSound(valid, s[1..], seen);
      } else {
        var key := ArticleKey(s[0]);
        var rest := Dedup(valid, s[1..], seen + {key});
        DedupSound(valid, s[1..], seen + {key});
        var r := [s[0]] + rest;
        forall k | 0 < k < |r|
          ensures ArticleKey(r[k]) != key
        {
          assert r[k] == rest[k - 1];
        }
      }
    }
  }

  /** Every valid article of the feed has its key either seen before or kept. */
  lemma {:induction false} DedupCovers(valid: RawNewsArticle -> bool, s: seq<RawNewsArticle>, seen: set<string>)
    ensures forall j :: 0 <= j < |s| && valid(s[j]) ==> ArticleKey(s[j]) in seen + KeysOf(Dedup(valid, s, seen))
  {
    if s != [] {
      var key := ArticleKey(s[0]);
      var next := if !valid(s[0]) || key in seen then seen else seen + {key};
      DedupCovers(valid, s[1..], next);
      var r := Dedup(valid, s, seen);
      var rest := Dedup(valid, s[1..], next);
      assert KeysOf(rest) <= KeysOf(r) by {
        forall x | x in KeysOf(rest)
          ensures x in KeysOf(r)
        {
          var k :| 0 <= k < |rest| && ArticleKey(rest[k]) == x;
          if next != seen {
            assert r[k + 1] == rest[k];
          }
        }
      }
      if next != seen {
        assert r[0] == s[0];
      }
      forall j | 0 <= j < |s| && valid(s[j])
        ensures ArticleKey(s[j]) in seen + KeysOf(r)
      {
        if j > 0 {
          assert s[1..][j - 1] == s[j];
        }
      }
    }
  }

  // ----- The same list, described by positions -----

  /** `s[j]` is valid and no valid article before it has its key. */
  predicate IsFirstValid(valid: RawNewsArticle -> bool, s: seq<RawNewsArticle>, j: nat)
    requires j < |s|
  {
    valid(s[j]) && forall i :: 0 <= i < j ==> !(valid(s[i]) && ArticleKey(s[i]) == ArticleKey(s[j]))
  }

  /** The articles `s[j]` with `IsFirstValid(valid, s, j)`, in the order of `j`. */
  function FirstOccurrences(valid: RawNewsArticle -> bool, s: seq<RawNewsArticle>): seq<RawNewsArticle>
  {
    if s == [] then []
    else
      var n := |s| - 1;
      FirstOccurrences(valid, s[..n]) + (if IsFirstValid(valid, s, n) then [s[n]] else [])
  }

  /** The keys of the valid articles of `s`. */
  function ValidKeys(valid: RawNewsArticle -> bool, s: seq<RawNewsArticle>): set<string>
  {
    set k | 0 <= k < |s| && valid(s[k]) :: ArticleKey(s[k])
  }

  lemma ValidKeysSnoc(valid: RawNewsArticle -> bool, s: seq<RawNewsArticle>, x: RawNewsArticle)
    ensures ValidKeys(valid, s + [x]) == ValidKeys(valid, s) + (if valid(x) then {ArticleKey(x)} else {})
    ensures IsFirstValid(valid, s + [x], |s|) <==> valid(x) && ArticleKey(x) !in ValidKeys(valid, s)
  {
    var t := s + [x];
    assert forall k :: 0 <= k < |s| ==> t[k] == s[k];
    assert t[|s|] == x;
    forall y | y in ValidKeys(valid, t)
      ensures y in ValidKeys(valid, s) + (if valid(x) then {ArticleKey(x)} else {})
    {
      var k :| 0 <= k < |t| && valid(t[k]) && ArticleKey(t[k]) == y;
      if k < |s| {
        assert valid(s[k]) && ArticleKey(s[k]) == y;
      }
    }
    forall y | y in ValidKeys(valid, s)
      ensures y in ValidKeys(valid, t)
    {
      var k :| 0 <= k < |s| && valid(s[k]) && ArticleKey(s[k]) == y;
      assert valid(t[k]) && ArticleKey(t[k]) == y;
    }
    if valid(x) {
      assert ArticleKey(t[|s|]) in ValidKeys(valid, t);
    }
    if !IsFirstValid(valid, t, |s|) && valid(x) {
      var i :| 0 <= i < |s| && valid(t[i]) && ArticleKey(t[i]) == ArticleKey(x);
      assert valid(s[i]) && ArticleKey(s[i]) == ArticleKey(x);
    }
  }

  /** One step of the walk: the head is kept exactly when it is valid and its key is new. */
  lemma DedupStep(valid: RawNewsArticle -> bool, s: seq<RawNewsArticle>, seen: set<string>)
    requires s != []
    ensures var keep := valid(s[0]) && ArticleKey(s[0]) !in seen;
      Dedup(valid, s, seen)
        == (if keep then [s[0]] else []) + Dedup(valid, s[1..], if keep then seen + {ArticleKey(s[0])} else seen)
  {
  }

  /** The positional list and the valid keys, one article further along. */
  lemma FirstOccurrencesSnoc(valid: RawNewsArticle -> bool, s: seq<RawNewsArticle>, x: RawNewsArticle)
    ensures var keep := valid(x) && ArticleKey(x) !in ValidKeys(valid, s);
      && FirstOccurrences(valid, s + [x]) == FirstOccurrences(valid, s) + (if keep then [x] else [])
      && ValidKeys(valid, s + [x]) == if keep then ValidKeys(valid, s) + {ArticleKey(x)} else ValidKeys(valid, s)
  {
    ValidKeysSnoc(valid, s, x);
    assert (s + [x])[..|s|] == s;
  }

  /** Regrouping a concatenation of three lists. */
  lemma Regroup<T>(front: seq<T>, middle: seq<T>, back: seq<T>, tail: seq<T>)
    requires tail == middle + back
    ensures front + middle + back == front + tail
  {
  }

  /** Walking the rest of a feed with the keys of its already walked prefix as `seen` continues the positional list. */
  lemma {:induction false} DedupAfterPrefix(valid: RawNewsArticle -> bool, done: seq<RawNewsArticle>, rest: seq<RawNewsArticle>)
    ensures FirstOccurrences(valid, done + rest) == FirstOccurrences(valid, done) + Dedup(valid, rest, ValidKeys(valid, done))
    decreases |rest|
  {
    if rest == [] {
      assert done + rest == done;
    } else {
      var x := rest[0];
      var done' := done + [x];
      assert done + rest == done' + rest[1..];
      var seen := ValidKeys(valid, done);
      var added: seq<RawNewsArticle> := if valid(x) && ArticleKey(x) !in seen then [x] else [];
      DedupAfterPrefix(valid, done', rest[1..]);
      FirstOccurrencesSnoc(valid, done, x);
      DedupStep(valid, rest, seen);
      Regroup(FirstOccurrences(valid, done), added,
              Dedup(valid, rest[1..], ValidKeys(valid, done')), Dedup(valid, rest, seen));
    }
  }

  /**
   * The walk with a `seen` set keeps exactly the first valid occurrence of each
   * key, in feed order.
   */
  lemma DedupIsFirstOccurrences(valid: RawNewsArticle -> bool, s: seq<RawNewsArticle>)
    ensures Dedup(valid, s, {}) == FirstOccurrences(valid, s)
  {
    DedupAfterPrefix(valid, [], s);
    assert [] + s == s;
    assert ValidKeys(valid, []) == {};
  }

  /**
   * What the loop leaves in `unique`: at most `MaxUnique` valid articles with
   * pairwise different keys, the first valid occurrences of their keys in feed
   * order; and when fewer than `MaxUnique` are kept, every valid key of the feed is among them.
   */
  lemma UniqueArticles(valid: RawNewsArticle -> bool, general: seq<RawNewsArticle>)
    ensures var unique := Take(Dedup(valid, general, {}), MaxUnique);
      && unique == Take(FirstOccurrences(valid, general), MaxUnique)
      && |unique| <= MaxUnique
      && (forall k :: 0 <= k < |unique| ==> valid(unique[k]) && unique[k] in general)
      && (forall j, k :: 0 <= j < k < |unique| ==> ArticleKey(unique[j]) != ArticleKey(unique[k]))
      && (|unique| < MaxUnique ==> forall j :: 0 <= j < |general| && valid(general[j]) ==> ArticleKey(general[j]) in KeysOf(unique))
  {
    var all := Dedup(valid, general, {});
    DedupIsFirstOccurrences(valid, general);
    DedupSound(valid, general, {});
    DedupCovers(valid, general, {});
    assert {} + KeysOf(all) == KeysOf(all);
  }

  /**
   * The composite key does not keep its parts apart: two articles with the same
   * id, whose url and headline split "a-b-c" differently, share a key, so the
   * fallback keeps only the first of them.
   */
  lemma KeyJoinsPartsAmbiguously(valid: RawNewsArticle -> bool)
    ensures var a := RawNewsArticle(1, Some("b-c"), None, Some("a"), None, None, None, None, None);
      var b := RawNewsArticle(1, Some("c"), None, Some("a-b"), None, None, None, None, None);
      && a != b
      && ArticleKey(a) == ArticleKey(b)
      && (valid(a) && valid(b) ==> Dedup(valid, [a, b], {}) == [a])
  {
    var a := RawNewsArticle(1, Some("b-c"), None, Some("a"), None, None, None, None, None);
    var b := RawNewsArticle(1, Some("c"), None, Some("a-b"), None, None, None, None, None);
    assert IntText(1) == "1";
    assert ArticleKey(a) == "1-a-b-c" == ArticleKey(b);
    if valid(a) && valid(b) {
      assert [a, b][0] == a && [a, b][1..] == [b];
      DedupStep(valid, [a, b], {});
      DedupStep(valid, [b], {ArticleKey(a)});
      assert [b][1..] == [];
    }
  }
}
