/** The project record (table `projects`) */
module ProjectsEntity {

  import opened Wrappers
  import opened Enums

  class Projects {
    var projectName: Option<string>
    var disclosureStatus: Option<YesNo>
    var projectDate: Option<int>
    /** The key of the owning workspace */
    var workSpaces: Option<int>

    constructor (projectName: Option<string>, disclosureStatus: Option<YesNo>, projectDate: Option<int>,
                 workSpaces: Option<int>)
      ensures this.projectName == projectName && this.disclosureStatus == disclosureStatus
      ensures this.projectDate == projectDate && this.workSpaces == workSpaces
    {
      this.projectName := projectName;
      this.disclosureStatus := disclosureStatus;
      this.projectDate := projectDate;
      this.workSpaces := workSpaces;
    }

    /** The name, the date and the workspace are required columns */
    predicate Persistable()
      reads this
    {
      projectName.Some? && projectDate.Some? && workSpaces.Some?
    }

    /** onCreate: a null disclosure status becomes N; nothing else is touched, so whether the
        record can be stored is decided before the hook runs */
    method OnCreate()
      modifies this`disclosureStatus
      ensures disclosureStatus == DefaultN(old(disclosureStatus))
      ensures Persistable() == old(Persistable())
    {
      if disclosureStatus == None {
        disclosureStatus := Some(N);
      }
    }
  }
}
