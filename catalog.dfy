/**
 * The add-ons' `supported` tables and the first-match searches over them.
 * An entry is a Python dict from keys to strings or lists; a search walks
 * the table in declaration order and returns the first entry that matches.
 */
module Catalog {
  import opened PyText

  /** One animation library: file path, label, description, icon and sort index. */
  datatype Library = Library(path: string, displayName: string, description: string, icon: string, index: int)

  /** A value stored in an entry: a string, a list of libraries or a list of names. */
  datatype Field = Text(text: string) | Libraries(libs: seq<Library>) | Names(names: seq<string>)

  type Entry = map<string, Field>

  /** What a search returns: the entry, `None`, or the `TypeError` Python raises. */
  datatype Lookup = Found(entry: Entry) | NotFound | TypeError

  /** `item.get(key, None) in name` is `False` for this entry (and raises nothing). */
  predicate FuzzyMiss(item: Entry, key: string, name: string) {
    key in item && item[key].Text? && !Contains(name, item[key].text)
  }

  /** `item.get(key, None) in name` is `True` for this entry. */
  predicate FuzzyHit(item: Entry, key: string, name: string) {
    key in item && item[key].Text? && Contains(name, item[key].text)
  }

  /**
   * `for item in table: if item.get(key, None) in name: return item`.
   * A missing key gives `None in name` and a list value gives `list in
   * name`; both raise `TypeError`.
   */
  function FuzzySearch(table: seq<Entry>, name: string, key: string): (r: Lookup)
    ensures r.NotFound? <==> forall j :: 0 <= j < |table| ==> FuzzyMiss(table[j], key, name)
    ensures r.Found? ==>
      exists k :: && 0 <= k < |table| && table[k] == r.entry
                  && FuzzyHit(table[k], key, name)
                  && (forall j :: 0 <= j < k ==> FuzzyMiss(table[j], key, name))
    ensures r.TypeError? ==>
      exists k :: && 0 <= k < |table|
                  && !(key in table[k] && table[k][key].Text?)
                  && (forall j :: 0 <= j < k ==> FuzzyMiss(table[j], key, name))
  {
    if table == [] then NotFound
    else if key !in table[0] || !table[0][key].Text? then TypeError
    else if Contains(name, table[0][key].text) then Found(table[0])
    else FuzzySearch(table[1..], name, key)
  }

  /** The search returns the first entry of the table that matches, provided every earlier one misses. */
  lemma {:induction false} FuzzyFirstMatch(table: seq<Entry>, name: string, key: string, k: int)
    requires 0 <= k < |table| && FuzzyHit(table[k], key, name)
    requires forall j :: 0 <= j < k ==> FuzzyMiss(table[j], key, name)
    ensures FuzzySearch(table, name, key) == Found(table[k])
    decreases k
  {
    if k > 0 {
      assert FuzzyMiss(table[0], key, name);
      FuzzyFirstMatch(table[1..], name, key, k - 1);
    }
  }

  /** `item.get(key, None) == name` for this entry. */
  predicate ExactHit(item: Entry, key: string, name: string) {
    key in item && item[key] == Text(name)
  }

  /**
   * `for item in table: if item.get(key, None) == name: return item`;
   * comparing `None` or a list with a string is `False`, so this search
   * never raises.
   */
  function ExactSearch(table: seq<Entry>, name: string, key: string): (r: Lookup)
    ensures !r.TypeError?
    ensures r.NotFound? <==> forall j :: 0 <= j < |table| ==> !ExactHit(table[j], key, name)
    ensures r.Found? ==>
      exists k :: && 0 <= k < |table| && table[k] == r.entry
                  && ExactHit(table[k], key, name)
                  && (forall j :: 0 <= j < k ==> !ExactHit(table[j], key, name))
  {
    if table == [] then NotFound
    else if ExactHit(table[0], key, name) then Found(table[0])
    else ExactSearch(table[1..], name, key)
  }
}
