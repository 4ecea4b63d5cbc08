/** The words the recorder, the policy and the loop share. */
module Vocabulary {

  datatype Mode = RecordOnly | Enforce

  datatype Attendance = Attended | Unattended

  datatype Decision = Allow | Deny | Ask

  datatype AskResolution = Approved | Denied | TimedOut | Unattended

  datatype FsAccess = Read | Write | Create | Delete
}
