/** The two configuration files together, and removing items from them one after the other. */
module ConfigFiles {
  import opened OptionType
  import opened Sequences
  import opened Bytes
  import opened Tokens
  import opened LineEditing
  import opened CrypttabText
  import FstabText
  import FstabEditor
  import CrypttabEditor

  datatype ConfigItem = FstabItem(entry: FstabText.FstabEntry) | CrypttabEntryItem(item: CrypttabItem)

  /** Both files, and how many removals were tried. */
  datatype Config = Config(fstab: Option<Text>, crypttab: CrypttabEditor.Store, calls: nat)

  /** How the system calls of the n-th removal turn out, and what its unused buffers hold. */
  datatype Env = Env(io: nat -> CrypttabEditor.Io, garbage: nat -> (nat -> CrypttabItem))

  /** add_remove_fstab_entry or add_remove_crypttab_entry with nothing to add. */
  function RemoveItem(c: Config, item: ConfigItem, env: Env): (Config, bool)
  {
    var io := env.io(c.calls);
    var c' := c.(calls := c.calls + 1);
    match item
    case FstabItem(e) =>
      if c.fstab.Some? && !io.readable then (c', false)
      else
        (match FstabEditor.EditFstab(if c.fstab.Some? then c.fstab.value else [], Some(e), None)
         case None => (c', false)
         case Some(text) => if io.writable then (c'.(fstab := Some(text)), true) else (c', false))
    case CrypttabEntryItem(i) =>
      var (store, r) := CrypttabEditor.EditCrypttab(c.crypttab, Some(i), None, env.garbage(c.calls), io);
      (c'.(crypttab := store), r.Ok?)
  }

  function FstabOf(c: Config): multiset<FstabText.FstabEntry>
  {
    multiset(FstabEditor.Entries(if c.fstab.Some? then c.fstab.value else []))
  }

  function CrypttabOf(c: Config): multiset<CrypttabItem>
  {
    multiset(Reported(CrypttabEditor.TextIn(c.crypttab)))
  }

  function FstabItems(items: seq<ConfigItem>): seq<FstabText.FstabEntry>
  {
    if items == [] then []
    else (if items[0].FstabItem? then [items[0].entry] else []) + FstabItems(items[1..])
  }

  function CrypttabItems(items: seq<ConfigItem>): seq<CrypttabItem>
  {
    if items == [] then []
    else (if items[0].CrypttabEntryItem? then [items[0].item] else []) + CrypttabItems(items[1..])
  }

  function CrypttabLines(c: Config): seq<Text>
  {
    LinesOf(CrypttabEditor.TextIn(c.crypttab))
  }

  /** No line of crypttab has a CR, VT or FF or an overlong token. */
  predicate CleanFile(c: Config)
  {
    CleanLines(CrypttabLines(c))
  }

  /** And every line has a token. */
  predicate Tidy(c: Config)
  {
    TidyLines(CrypttabLines(c))
  }

  /** What must hold of the files, now and after every removal, and of an item, for a removal to be
      exact. */
  datatype Terms = Terms(files: Config -> bool, item: ConfigItem -> bool)

  predicate AllFit(terms: Terms, items: seq<ConfigItem>)
  {
    forall i :: 0 <= i < |items| ==> terms.item(items[i])
  }

  predicate Uncommented(item: ConfigItem)
  {
    item.CrypttabEntryItem? ==> !Commented(item.item.name)
  }

  /** Files without blank lines, and items that are not commented out. */
  function WithTokens(): Terms
  {
    Terms(c => Tidy(c), item => Uncommented(item))
  }

  /** No buffer ever spells the item at a line without a token. */
  ghost predicate NeverSpelled(env: Env, item: ConfigItem)
  {
    item.CrypttabEntryItem? ==> forall call, n: nat :: Compared(env.garbage(call)(n)) != item.item
  }

  /** Files that may have blank lines, and items that no buffer spells there. */
  ghost function WithBlankLines(env: Env): Terms
  {
    Terms(c => CleanFile(c), item => Uncommented(item) && NeverSpelled(env, item))
  }

  /** The files list the old items without the removed ones, which were all listed. */
  ghost predicate Minus(c: Config, c': Config, removed: seq<ConfigItem>)
  {
    && FstabOf(c) == FstabOf(c') + multiset(FstabItems(removed))
    && CrypttabOf(c) == CrypttabOf(c') + multiset(CrypttabItems(removed))
  }

  lemma {:induction false} FstabItemRemoved(text: Text, e: FstabText.FstabEntry)
    ensures match FstabEditor.EditFstab(text, Some(e), None)
            case None => true
            case Some(text') =>
              multiset(FstabEditor.Entries(text)) == multiset(FstabEditor.Entries(text')) + multiset{e}
  {
    FstabEditor.RemoveKeepsOtherLines(text, e);
    if e in FstabEditor.Entries(text) {
      assert e in multiset(FstabEditor.Entries(text));
    }
  }

  lemma {:induction false} FstabStep(c: Config, e: FstabText.FstabEntry, env: Env)
    ensures var (c', ok) := RemoveItem(c, FstabItem(e), env);
            c'.crypttab == c.crypttab && FstabOf(c) == FstabOf(c') + if ok then multiset{e} else multiset{}
  {
    FstabItemRemoved(if c.fstab.Some? then c.fstab.value else [], e);
  }

  lemma {:induction false} CrypttabStepText(c: Config, i: CrypttabItem, env: Env)
    ensures var (c', ok) := RemoveItem(c, CrypttabEntryItem(i), env);
            var text := CrypttabEditor.TextIn(c.crypttab);
            var k := RemovedLine(LinesOf(text), i, env.garbage(c.calls));
            && c'.fstab == c.fstab && (ok ==> k < |LinesOf(text)|)
            && CrypttabEditor.TextIn(c'.crypttab) == if ok then Rewritten(text, k, []) else text
  {
    CrypttabEditor.RemoveOutcomeText(c.crypttab, i, env.garbage(c.calls), env.io(c.calls));
  }

  /** Removing from crypttab is exact as soon as the line taken out is one both parsers agree on. */
  lemma {:induction false} CrypttabStep(c: Config, i: CrypttabItem, env: Env)
    requires var ls := CrypttabLines(c);
             var k := RemovedLine(ls, i, env.garbage(c.calls));
             k < |ls| ==> TidyLine(ls[k])
    requires !Commented(i.name)
    ensures var (c', ok) := RemoveItem(c, CrypttabEntryItem(i), env);
            var ls := CrypttabLines(c);
            && FstabOf(c') == FstabOf(c) && CrypttabOf(c) == CrypttabOf(c') + (if ok then multiset{i} else multiset{})
            && CrypttabLines(c') == if ok then Without(ls, RemovedLine(ls, i, env.garbage(c.calls))) else ls
  {
    CrypttabStepText(c, i, env);
    TakenOutLineIsReported(CrypttabEditor.TextIn(c.crypttab), i, env.garbage(c.calls));
  }

  /** Under either terms the line taken out is such a line. */
  lemma {:induction false} TakenOutLineIsTidy(c: Config, i: CrypttabItem, env: Env)
    requires Tidy(c) || (CleanFile(c) && NeverSpelled(env, CrypttabEntryItem(i)))
    ensures var ls := CrypttabLines(c);
            var k := RemovedLine(ls, i, env.garbage(c.calls));
            k < |ls| ==> TidyLine(ls[k])
  {
    var ls, garbage := CrypttabLines(c), env.garbage(c.calls);
    var k := RemovedLine(ls, i, garbage);
    if k < |ls| && Words(ls[k], BLANK) == [] && CleanFile(c) {
      assert EditorFlags(ls, i, garbage)[k];
      NoTokenNoWord(ls[k]);
    }
  }

  /** Either terms. */
  ghost predicate FitsTerms(terms: Terms, env: Env)
  {
    terms == WithTokens() || terms == WithBlankLines(env)
  }

  /** The terms outlast the removal of a line. */
  lemma {:induction false} TermsLast(c: Config, c': Config, k: nat, env: Env, terms: Terms)
    requires FitsTerms(terms, env) && terms.files(c) && CrypttabLines(c') == Without(CrypttabLines(c), k)
    ensures terms.files(c')
  {
    WithoutIsTidy(CrypttabLines(c), k);
  }

  lemma {:induction false} FstabItemGoes(c: Config, e: FstabText.FstabEntry, env: Env, terms: Terms)
    requires FitsTerms(terms, env) && terms.files(c)
    ensures var (c', ok) := RemoveItem(c, FstabItem(e), env);
            terms.files(c') && Minus(c, c', if ok then [FstabItem(e)] else [])
  {
    OneItem(FstabItem(e));
    FstabStep(c, e, env);
    TermsLast(c, RemoveItem(c, FstabItem(e), env).0, |CrypttabLines(c)|, env, terms);
  }

  lemma {:induction false} CrypttabItemGoes(c: Config, i: CrypttabItem, env: Env, terms: Terms)
    requires FitsTerms(terms, env) && terms.files(c) && terms.item(CrypttabEntryItem(i))
    ensures var (c', ok) := RemoveItem(c, CrypttabEntryItem(i), env);
            terms.files(c') && Minus(c, c', if ok then [CrypttabEntryItem(i)] else [])
  {
    OneItem(CrypttabEntryItem(i));
    TakenOutLineIsTidy(c, i, env);
    CrypttabStep(c, i, env);
    var (c', ok) := RemoveItem(c, CrypttabEntryItem(i), env);
    var k := if ok then RemovedLine(CrypttabLines(c), i, env.garbage(c.calls)) else |CrypttabLines(c)|;
    TermsLast(c, c', k, env, terms);
  }

  lemma {:induction false} ItemRemoved(c: Config, item: ConfigItem, env: Env, terms: Terms)
    requires FitsTerms(terms, env) && terms.files(c) && terms.item(item)
    ensures var (c', ok) := RemoveItem(c, item, env);
            terms.files(c') && Minus(c, c', if ok then [item] else [])
  {
    match item {
      case FstabItem(e) => FstabItemGoes(c, e, env, terms);
      case CrypttabEntryItem(i) => CrypttabItemGoes(c, i, env, terms);
    }
  }

  lemma OneItem(item: ConfigItem)
    ensures FstabItems([item]) == if item.FstabItem? then [item.entry] else []
    ensures CrypttabItems([item]) == if item.CrypttabEntryItem? then [item.item] else []
    ensures FstabItems([]) == [] && CrypttabItems([]) == []
  {
    assert [item][1..] == [];
  }

  lemma {:induction false} ItemsConcat(a: seq<ConfigItem>, b: seq<ConfigItem>)
    ensures FstabItems(a + b) == FstabItems(a) + FstabItems(b)
    ensures CrypttabItems(a + b) == CrypttabItems(a) + CrypttabItems(b)
  {
    if a == [] {
      assert a + b == b;
    } else {
      assert (a + b)[1..] == a[1..] + b;
      ItemsConcat(a[1..], b);
      assert (a + b)[0] == a[0];
      Assoc(if a[0].FstabItem? then [a[0].entry] else [], FstabItems(a[1..]), FstabItems(b));
      Assoc(if a[0].CrypttabEntryItem? then [a[0].item] else [], CrypttabItems(a[1..]), CrypttabItems(b));
    }
  }

  lemma {:induction false} MultisetSums<T>(a: multiset<T>, b: multiset<T>, c: multiset<T>, r: seq<T>, s: seq<T>)
    requires a == b + multiset(r) && b == c + multiset(s)
    ensures a == c + multiset(r + s)
  {
    assert multiset(r + s) == multiset(r) + multiset(s);
  }

  lemma {:induction false} MinusTransitive(a: Config, b: Config, c: Config, r: seq<ConfigItem>, s: seq<ConfigItem>)
    requires Minus(a, b, r) && Minus(b, c, s)
    ensures Minus(a, c, r + s)
  {
    ItemsConcat(r, s);
    MultisetSums(FstabOf(a), FstabOf(b), FstabOf(c), FstabItems(r), FstabItems(s));
    MultisetSums(CrypttabOf(a), CrypttabOf(b), CrypttabOf(c), CrypttabItems(r), CrypttabItems(s));
  }

  lemma {:induction false} NothingRemoved(c: Config)
    ensures Minus(c, c, [])
  {
  }

  /** A way to remove items that takes exactly what it removes out of the files. */
  ghost predicate Exact(remove: (Config, ConfigItem) -> (Config, bool), terms: Terms)
  {
    forall c, item :: terms.files(c) && terms.item(item) ==> ExactStep(c, item, remove(c, item), terms)
  }

  ghost predicate ExactStep(c: Config, item: ConfigItem, r: (Config, bool), terms: Terms)
  {
    terms.files(r.0) && Minus(c, r.0, if r.1 then [item] else [])
  }

  /** Removing items with the two editors. */
  function Editors(env: Env): (Config, ConfigItem) -> (Config, bool)
  {
    (c, item) => RemoveItem(c, item, env)
  }

  /** The two editors are such a way, whatever their system calls do: for files without blank lines,
      and for files with blank lines as long as no buffer spells a removed item there. */
  lemma {:induction false} EditorsAreExact(env: Env, terms: Terms)
    requires FitsTerms(terms, env)
    ensures Exact(Editors(env), terms)
  {
    forall c, item | terms.files(c) && terms.item(item) ensures ExactStep(c, item, RemoveItem(c, item, env), terms) {
      ItemRemoved(c, item, env, terms);
    }
  }
}
