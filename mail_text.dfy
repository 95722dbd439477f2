/**
 * The fixed texts of the registrar notification. The mail is identified by
 * its hook_mail key; the subject and the description paragraph it carries
 * never vary, so the model records the key and keeps the wording here.
 */
module MailText {
  /** The hook_mail keys the module sends under. */
  datatype MailKey = RegistrarEmail

  function KeyName(k: MailKey): string {
    match k
    case RegistrarEmail => "ip_register_email_registrars"
  }

  function Subject(k: MailKey): string {
    match k
    case RegistrarEmail => "IP address changes from Minitex participants"
  }

  function Description(k: MailKey): string {
    match k
    case RegistrarEmail =>
      "This email is official notification of changes to the IP address for the institution listed. "
      + "This form is generated by Minitex as a convenience to its participants. "
      + "All correspondence should be with the contact person listed below."
  }

  /** The operator address that every notification is blind-copied to. */
  function OperatorAddress(): string { "swans062@umn.edu" }
}
