/** The two adapters a form's mail can leave through. */
module Adapters {
  import MG = Mailgun
  import SM = Smtp

  datatype Adapter = ViaMailgun(mailgun: MG.Sender) | ViaSmtp(smtp: SM.Sender)

  /** The addresses an adapter sends from and to. */
  function AddressesOf(a: Adapter): (string, string) {
    match a
    case ViaMailgun(m) => (m.from, m.to)
    case ViaSmtp(c) => (c.from, c.to)
  }
}
