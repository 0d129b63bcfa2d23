/**
 * The fixed graph of drawer sections (`drawerSectionsConfig`): every section
 * knows its own name and, optionally, the section reached by `next` and the
 * one reached by `prev`.
 */
module DrawerSections {
  import opened Wrappers

  datatype Section = Detail | Preferences | Confirmation | Sign | SuccessTx | FailTx

  datatype SectionConfig = SectionConfig(
    currentSection: Section,
    nextSection: Option<Section>,
    prevSection: Option<Section>)

  /** The entry of the table for section `s`; each entry is keyed by its own section. */
  function SectionsConfig(s: Section): (c: SectionConfig)
    ensures c.currentSection == s
  {
    match s
    case Detail => SectionConfig(Detail, None, None)
    case Preferences => SectionConfig(Preferences, Some(Confirmation), Some(Detail))
    case Confirmation => SectionConfig(Confirmation, Some(Sign), Some(Preferences))
    case Sign => SectionConfig(Sign, None, Some(Confirmation))
    case SuccessTx => SectionConfig(SuccessTx, None, Some(Sign))
    case FailTx => SectionConfig(FailTx, None, Some(Sign))
  }

  /** A configuration the store may point at: one of the table's entries. */
  predicate IsTableEntry(c: SectionConfig) {
    c == SectionsConfig(c.currentSection)
  }

  /** No entry of the table has `SuccessTx` as its `next` section. */
  lemma NoNextIntoSuccess(s: Section)
    ensures SectionsConfig(s).nextSection != Some(SuccessTx)
  {
  }

  /** Exactly DETAIL, SIGN, SUCCESS_TX and FAIL_TX have no `next` section. */
  lemma TerminalSections(s: Section)
    ensures SectionsConfig(s).nextSection.None? <==> s in {Detail, Sign, SuccessTx, FailTx}
  {
  }

  /** Only DETAIL has no `prev` section. */
  lemma FirstSection(s: Section)
    ensures SectionsConfig(s).prevSection.None? <==> s == Detail
  {
  }

  /** Where `next` leads somewhere, `prev` from there leads back. */
  lemma PrevUndoesNext(s: Section)
    ensures SectionsConfig(s).nextSection.Some? ==>
      SectionsConfig(SectionsConfig(s).nextSection.value).prevSection == Some(s)
  {
  }
}
