/** The resume store: one mutable `resume` field that every action
    overwrites with the value computed in `ResumeUpdates`. */
module ResumeStore {
  import opened ResumeModel
  import U = ResumeUpdates
  import DefaultResume

  class Store {
    var resume: Resume

    /** The store starts from the sample resume. */
    constructor ()
      ensures exists t :: resume == DefaultResume.SampleAround(t)
      ensures DefaultResume.SampleShaped(resume)
    {
      var sample, texts := DefaultResume.NewSample();
      resume := sample;
    }

    method SetResume(r: Resume)
      modifies this
      ensures resume == r
    {
      resume := r;
    }

    method UpdateHeader(p: U.HeaderPatch)
      modifies this
      ensures resume == U.UpdateHeader(old(resume), p)
      ensures resume.sections == old(resume.sections)
    {
      U.UpdateHeaderFields(resume, p);
      resume := U.UpdateHeader(resume, p);
    }

    method AddSection(s: Section)
      modifies this
      ensures resume == U.AddSection(old(resume), s)
      ensures old(WellTyped(resume)) && s.WellTyped() ==> WellTyped(resume)
    {
      if WellTyped(resume) && s.WellTyped() {
        U.AddSectionWellTyped(resume, s);
      }
      resume := U.AddSection(resume, s);
    }

    method UpdateSection(sectionId: string, p: U.SectionPatch)
      modifies this
      ensures resume == U.UpdateSection(old(resume), sectionId, p)
      ensures resume.header == old(resume.header) && |resume.sections| == |old(resume.sections)|
    {
      U.UpdateSectionFrame(resume, sectionId, p);
      resume := U.UpdateSection(resume, sectionId, p);
    }

    method RemoveSection(sectionId: string)
      modifies this
      ensures resume == U.RemoveSection(old(resume), sectionId)
      ensures sectionId !in SectionIds(resume.sections)
      ensures old(WellTyped(resume)) ==> WellTyped(resume)
    {
      U.RemoveSectionGone(resume, sectionId);
      if WellTyped(resume) {
        U.RemoveSectionWellTyped(resume, sectionId);
      }
      resume := U.RemoveSection(resume, sectionId);
    }

    method ReorderSections(sections: seq<Section>)
      modifies this
      ensures resume == U.ReorderSections(old(resume), sections)
      ensures old(WellTyped(resume)) && multiset(sections) == multiset(old(resume.sections)) ==> WellTyped(resume)
    {
      if WellTyped(resume) && multiset(sections) == multiset(resume.sections) {
        U.ReorderPermutationWellTyped(resume, sections);
      }
      resume := U.ReorderSections(resume, sections);
    }

    method AddEntry(sectionId: string, e: Entry)
      modifies this
      ensures resume == U.AddEntry(old(resume), sectionId, e)
      ensures resume.header == old(resume.header) && |resume.sections| == |old(resume.sections)|
    {
      U.AddEntryFrame(resume, sectionId, e);
      resume := U.AddEntry(resume, sectionId, e);
    }

    method UpdateEntry(sectionId: string, entryId: string, p: U.EntryPatch)
      modifies this
      ensures resume == U.UpdateEntry(old(resume), sectionId, entryId, p)
      ensures old(WellTyped(resume)) ==> WellTyped(resume)
    {
      if WellTyped(resume) {
        U.UpdateEntryWellTyped(resume, sectionId, entryId, p);
      }
      resume := U.UpdateEntry(resume, sectionId, entryId, p);
    }

    method RemoveEntry(sectionId: string, entryId: string)
      modifies this
      ensures resume == U.RemoveEntry(old(resume), sectionId, entryId)
      ensures old(WellTyped(resume)) ==> WellTyped(resume)
    {
      if WellTyped(resume) {
        U.RemoveEntryWellTyped(resume, sectionId, entryId);
      }
      resume := U.RemoveEntry(resume, sectionId, entryId);
    }

    /** `reset`: back to the sample resume. */
    method Reset()
      modifies this
      ensures exists t :: resume == DefaultResume.SampleAround(t)
      ensures DefaultResume.SampleShaped(resume)
    {
      var sample, texts := DefaultResume.NewSample();
      resume := sample;
    }
  }
}
